/**
 The list of exit handlers: blocks of 32 slots, filled and drained from one end,
 also while the drain is under way.
 */
module AtExit {

  const COUNT: nat := 32

  /** A function and its argument. */
  datatype Handler = Handler(f: nat, a: nat)

  datatype Option<+T> = None | Some(value: T)

  /** The handlers of full blocks, oldest first; the newest block comes first in `blocks`. */
  function Older(blocks: seq<seq<Handler>>): seq<Handler> {
    if blocks == [] then [] else Older(blocks[1..]) + blocks[0]
  }

  /** The stack that the blocks and the slot number stand for, top last. */
  function Stack(blocks: seq<seq<Handler>>, slot: nat): seq<Handler>
    requires blocks != [] ==> slot <= |blocks[0]|
  {
    if blocks == [] then [] else Older(blocks[1..]) + blocks[0][..slot]
  }

  // ---- what may happen -----------------------------------------------------------------------------

  datatype Event = Registered(h: Handler) | Refused(h: Handler) | Called(h: Handler)

  /** A history of a stack that starts as `stack`: a registered handler goes on top, the one called comes from
      the top.  The result is the stack at the end, or None if the history breaks the rules. */
  function Replay(stack: seq<Handler>, log: seq<Event>): (r: Option<seq<Handler>>)
  {
    if log == [] then Some(stack)
    else
      var before := Replay(stack, log[..|log| - 1]);
      if before.None? then None
      else
        var s := before.value;
        match log[|log| - 1]
        case Registered(h) => Some(s + [h])
        case Refused(_) => Some(s)
        case Called(h) => if s != [] && s[|s| - 1] == h then Some(s[..|s| - 1]) else None
  }

  /** A handler tries to register another; `memory` tells whether a block can be allocated if one is needed. */
  datatype Attempt = Attempt(h: Handler, memory: bool)

  /** The call of a handler and what became of its registrations. */
  datatype Round = Round(h: Handler, events: seq<Event>)

  /** One event for each attempt, in order; none is refused while there is memory. */
  ghost predicate Tells(events: seq<Event>, attempts: seq<Attempt>) {
    && |events| == |attempts|
    && forall j :: 0 <= j < |events| ==>
         || events[j] == Registered(attempts[j].h)
         || (events[j] == Refused(attempts[j].h) && !attempts[j].memory)
  }

  /** The whole history. */
  function Flat(rounds: seq<Round>): seq<Event> {
    if rounds == [] then []
    else
      var r := rounds[|rounds| - 1];
      Flat(rounds[..|rounds| - 1]) + [Called(r.h)] + r.events
  }

  function Calls(log: seq<Event>): multiset<Handler> {
    if log == [] then multiset{}
    else Calls(log[..|log| - 1]) + CallOf(log[|log| - 1])
  }

  function CallOf(e: Event): multiset<Handler> {
    if e.Called? then multiset{e.h} else multiset{}
  }

  function RegistrationOf(e: Event): multiset<Handler> {
    if e.Registered? then multiset{e.h} else multiset{}
  }

  function Registrations(log: seq<Event>): multiset<Handler> {
    if log == [] then multiset{}
    else Registrations(log[..|log| - 1]) + RegistrationOf(log[|log| - 1])
  }

  /** Every handler there was at the start or that was registered meanwhile is called exactly once or still
      waits. */
  lemma {:induction false} CalledOnce(stack: seq<Handler>, log: seq<Event>)
    requires Replay(stack, log).Some?
    ensures multiset(stack) + Registrations(log) == Calls(log) + multiset(Replay(stack, log).value)
  {
    if log != [] {
      hide CallOf, RegistrationOf;
      var l, e := log[..|log| - 1], log[|log| - 1];
      CalledOnce(stack, l);
      assert log == l + [e];
      var s, t := Replay(stack, l).value, Replay(stack, log).value;
      Balance(stack, l, e);
      Sums(multiset(stack), Registrations(l), Calls(l), multiset(s), multiset(t), RegistrationOf(e), CallOf(e));
    }
  }

  /** One event moves one handler at most. */
  lemma Balance(stack: seq<Handler>, log: seq<Event>, e: Event)
    requires Replay(stack, log).Some? && Replay(stack, log + [e]).Some?
    ensures multiset(Replay(stack, log).value) + RegistrationOf(e)
         == multiset(Replay(stack, log + [e]).value) + CallOf(e)
  {
    ReplayNext(stack, log, e);
    hide Replay;
    var s := Replay(stack, log).value;
    if e.Called? {
      assert s == s[..|s| - 1] + [e.h];
    }
  }

  lemma Sums(a: multiset<Handler>, r: multiset<Handler>, c: multiset<Handler>, s: multiset<Handler>, t: multiset<Handler>,
             x: multiset<Handler>, y: multiset<Handler>)
    requires a + r == c + s && s + x == t + y
    ensures a + (r + x) == c + y + t
  {
    forall h: Handler
      ensures (a + (r + x))[h] == (c + y + t)[h]
    {
      assert (a + r)[h] == (c + s)[h] && (s + x)[h] == (t + y)[h];
    }
  }

  /** One more event. */
  lemma ReplayNext(stack: seq<Handler>, log: seq<Event>, e: Event)
    requires Replay(stack, log).Some?
    ensures var s := Replay(stack, log).value;
            Replay(stack, log + [e]) ==
            match e
            case Registered(h) => Some(s + [h])
            case Refused(_) => Some(s)
            case Called(h) => if s != [] && s[|s| - 1] == h then Some(s[..|s| - 1]) else None
  {
    assert (log + [e])[..|log|] == log;
  }

  // ---- the list ----------------------------------------------------------------------------------------

  class Handlers {
    var blocks: seq<seq<Handler>>
    var slot: nat
    var finished: bool

    /** Every block has all its slots; all but the newest are full, which is to say that only the newest has
        a slot number. */
    ghost predicate Valid()
      reads this
    {
      && slot <= COUNT && (forall i :: 0 <= i < |blocks| ==> |blocks[i]| == COUNT)
      && (blocks == [] ==> slot == 0 || finished)
    }

    ghost function Waiting(): seq<Handler>
      requires Valid()
      reads this
    {
      Stack(blocks, slot)
    }

    constructor ()
      ensures Valid() && Waiting() == [] && !finished
    {
      blocks, slot, finished := [], 0, false;
    }

    /** __cxa_atexit; `memory` tells whether a block can be allocated if one is needed. */
    method Register(h: Handler, memory: bool) returns (r: int)
      requires Valid()
      modifies this
      ensures Valid() && finished == old(finished)
      ensures r == if old(finished) || (old(slot) == COUNT && !memory) then -1 else 0
      ensures Waiting() == if r == 0 then old(Waiting()) + [h] else old(Waiting())
      ensures !old(finished) && |old(Waiting())| < COUNT ==> r == 0
    {
      if finished {
        return -1;
      }
      if blocks == [] {
        blocks := [Empty()];
      }
      if slot == COUNT {
        if !memory {
          return -1;
        }
        assert blocks[0][..COUNT] == blocks[0];
        blocks := [Empty()] + blocks;
        slot := 0;
      }
      blocks := [blocks[0][slot := h]] + blocks[1..];
      slot := slot + 1;
      r := 0;
    }

    /** From the return of one handler, or the start of __funcs_on_exit, to the next call: the block is left
        when its slots are used up, and the drain ends after the last block. */
    method Next() returns (h: Option<Handler>)
      requires Valid()
      modifies this
      ensures Valid()
      ensures old(Waiting()) != [] ==> h.Some? && old(Waiting()) == Waiting() + [h.value] && finished == old(finished)
      ensures old(Waiting()) == [] ==> h.None? && Waiting() == [] && finished
    {
      while blocks != []
        invariant slot <= COUNT && (forall i :: 0 <= i < |blocks| ==> |blocks[i]| == COUNT)
        invariant Stack(blocks, slot) == old(Waiting()) && finished == old(finished)
        decreases |blocks|
      {
        if slot > 0 {
          slot := slot - 1;
          assert blocks[0][..slot + 1] == blocks[0][..slot] + [blocks[0][slot]];
          return Some(blocks[0][slot]);
        }
        FullBelow(blocks);
        blocks := blocks[1..];
        slot := COUNT;
      }
      finished := true;
      h := None;
    }

    /** __funcs_on_exit.  `during` tells, for each handler in the order they are called, what it tries to register. */
    method Drain(during: seq<seq<Attempt>>) returns (rounds: seq<Round>)
      requires Valid() && !finished
      modifies this
      ensures Valid() && finished && Waiting() == []
      ensures Replay(old(Waiting()), Flat(rounds)) == Some([])
      ensures forall i :: 0 <= i < |rounds| ==> Tells(rounds[i].events, if i < |during| then during[i] else [])
    {
      hide Stack, Older, Flat, Replay;
      rounds := [];
      ReplayNothing(old(Waiting()));
      while true
        invariant Valid() && Replay(old(Waiting()), Flat(rounds)) == Some(Waiting()) && !finished
        invariant forall i :: 0 <= i < |rounds| ==> Tells(rounds[i].events, if i < |during| then during[i] else [])
        decreases if |rounds| < |during| then |during| - |rounds| else 0, |Waiting()|
      {
        var h := Next();
        if h.None? {
          break;
        }
        ReplayNext(old(Waiting()), Flat(rounds), Called(h.value));
        var attempts := if |rounds| < |during| then during[|rounds|] else [];
        var events := RegisterAll(attempts, old(Waiting()), Flat(rounds) + [Called(h.value)]);
        FlatNext(rounds, Round(h.value, events));
        rounds := rounds + [Round(h.value, events)];
      }
    }

    /** The registrations of one handler. */
    method RegisterAll(attempts: seq<Attempt>, ghost start: seq<Handler>, ghost log: seq<Event>) returns (events: seq<Event>)
      requires Valid() && !finished && Replay(start, log) == Some(Waiting())
      modifies this
      ensures Valid() && !finished && Replay(start, log + events) == Some(Waiting())
      ensures Tells(events, attempts) && (attempts == [] ==> Waiting() == old(Waiting()))
    {
      hide Stack, Older, Replay;
      events := [];
      assert log + events == log;
      while |events| < |attempts|
        invariant |events| <= |attempts| && Tells(events, attempts[..|events|])
        invariant Valid() && !finished && Replay(start, log + events) == Some(Waiting())
        invariant attempts == [] ==> Waiting() == old(Waiting())
      {
        var t := attempts[|events|];
        var r := Register(t.h, t.memory);
        var e := if r == 0 then Registered(t.h) else Refused(t.h);
        ReplayNext(start, log + events, e);
        assert log + events + [e] == log + (events + [e]);
        events := events + [e];
      }
      assert attempts[..|events|] == attempts;
    }
  }

  lemma ReplayNothing(stack: seq<Handler>)
    ensures Replay(stack, Flat([])) == Some(stack)
  {
  }

  lemma FlatNext(rounds: seq<Round>, r: Round)
    ensures Flat(rounds + [r]) == Flat(rounds) + [Called(r.h)] + r.events
  {
    assert (rounds + [r])[..|rounds|] == rounds;
  }

  /** What lies below an emptied block is the full block under it and what that lies on. */
  lemma FullBelow(blocks: seq<seq<Handler>>)
    requires blocks != [] && forall i :: 0 <= i < |blocks| ==> |blocks[i]| == COUNT
    ensures Stack(blocks[1..], COUNT) == Stack(blocks, 0)
  {
    var rest := blocks[1..];
    assert blocks[0][..0] == [];
    if rest != [] {
      assert rest[0][..COUNT] == rest[0];
    }
  }

  function Empty(): seq<Handler> {
    seq(COUNT, i => Handler(0, 0))
  }
}
