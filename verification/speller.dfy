/**
  The Speller screen (`SpellerViewController`): when it appears it pushes the
  keyboard's entry on top of its own; the keyboard's custom Home key pops the
  keyboard and goes home inside one outer batch.
*/
module Speller {
  import opened Wrappers
  import opened ControlGateway
  import opened Controls
  import opened Home

  /** Identifier of the custom Home key in the keyboard. */
  const HomeKeyId: string := "Home"

  /** `viewDidAppear`: the keyboard's entry goes on top of the Speller's. */
  function DidAppear(c: Coord): (r: Coord)
    ensures r.shown == c.shown
    ensures r.gw.stack == c.gw.stack + [KeyboardSurface]
  {
    c.(gw := Push(c.gw, KeyboardSurface))
  }

  /** The Speller registers no actions of its own: the keyboard's entry handles control. */
  function Registered(): (r: seq<Action>)
    ensures |r| == 0
  {
    []
  }

  /**
    A press on a custom key, answering whether the Speller handled it. Only
    the Home key is handled: one batch pops the keyboard, and going home opens
    a nested batch that pops the Speller.
  */
  function CustomKeyPress(c: Coord, id: string, delegates: set<Child>): (r: (bool, Coord))
    ensures r.0 <==> id == HomeKeyId
    ensures !r.0 ==> r.1 == c
    ensures r.0 ==> r.1.shown.None? && r.1.gw.depth == c.gw.depth
  {
    if id == HomeKeyId then
      var g := Pop(BeginBatch(c.gw));
      var home := GoHome(c.(gw := g), delegates);
      (true, home.(gw := EndBatch(home.gw)))
    else (false, c)
  }

  /**
    With the Speller shown and the keyboard on top, the Home key issues two
    pops and nothing else, committed once, and leaves only Home's entry.
  */
  lemma HomeKeyPopsTwiceInOneBatch(c: Coord, delegates: set<Child>)
    requires c.shown == Some(Speller) && c.gw.depth == 0
    requires c.gw.stack == [HomeSurface, ChildSurface(Speller), KeyboardSurface]
    ensures var r := CustomKeyPress(c, HomeKeyId, delegates).1;
      r.gw.stack == [HomeSurface] && r.shown.None?
      && r.gw.trace == c.gw.trace + [Popped, Popped, Committed([HomeSurface])]
  {
    var g := Pop(BeginBatch(c.gw));
    assert g.stack == [HomeSurface, ChildSurface(Speller)];
    var home := GoHome(c.(gw := g), delegates);
    assert Pop(g).stack == [HomeSurface];
  }

  /** The Home key shows the control layer exactly one new stack: Home alone. */
  lemma HomeKeyCommitsOnce(c: Coord, delegates: set<Child>)
    requires c.shown == Some(Speller) && c.gw.depth == 0
    requires c.gw.stack == [HomeSurface, ChildSurface(Speller), KeyboardSurface]
    ensures Commits(CustomKeyPress(c, HomeKeyId, delegates).1.gw.trace) == Commits(c.gw.trace) + [[HomeSurface]]
  {
    HomeKeyPopsTwiceInOneBatch(c, delegates);
    var tail: seq<Event<Surface>> := [Popped, Popped, Committed([HomeSurface])];
    assert tail[1..] == [Popped, Committed([HomeSurface])];
    assert tail[1..][1..] == [Committed([HomeSurface])];
    assert Commits(tail) == [[HomeSurface]];
    CommitsAppend(c.gw.trace, tail);
  }
}
