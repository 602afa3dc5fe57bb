/** How one move per call brings the emulated screen's windows into the host's order. */
module WindowOrder {
  import opened Wrappers

  /** A window by its address. */
  type Window = nat

  /** How many windows in front agree. */
  function Matching(host: seq<Window>, order: seq<Window>): (k: nat)
    ensures k <= |host| && k <= |order| && host[..k] == order[..k]
    ensures k < |host| && k < |order| ==> host[k] != order[k]
  {
    if host != [] && order != [] && host[0] == order[0] then
      var k := 1 + Matching(host[1..], order[1..]);
      assert host[..k] == [host[0]] + host[1..][..k - 1] && order[..k] == [order[0]] + order[1..][..k - 1];
      k
    else 0
  }

  ghost predicate Distinct(ws: seq<Window>) {
    forall i: nat, j: nat :: i < j < |ws| ==> ws[i] != ws[j]
  }

  function Without(ws: seq<Window>, w: Window): seq<Window> {
    if ws == [] then [] else (if ws[0] == w then [] else [ws[0]]) + Without(ws[1..], w)
  }

  function Before(ws: seq<Window>, w: Window, b: Window): seq<Window> {
    if ws == [] then [] else if ws[0] == b then [w] + ws else [ws[0]] + Before(ws[1..], w, b)
  }

  /** MoveWindowInFrontOf: `w` is taken out of the order and put back directly in front of `b`. */
  function Moved(ws: seq<Window>, w: Window, b: Window): seq<Window> {
    Before(Without(ws, w), w, b)
  }

  lemma {:induction false} WithoutAbsent(ws: seq<Window>, w: Window)
    requires w !in ws
    ensures Without(ws, w) == ws
  {
    if ws != [] {
      WithoutAbsent(ws[1..], w);
      assert ws == [ws[0]] + ws[1..];
    }
  }

  lemma {:induction false} WithoutAt(ws: seq<Window>, j: nat)
    requires Distinct(ws) && j < |ws|
    ensures Without(ws, ws[j]) == ws[..j] + ws[j + 1..]
  {
    var w, rest := ws[j], ws[1..];
    if j == 0 {
      WithoutAbsent(rest, w);
      assert [] + rest == ws[..0] + ws[1..];
    } else {
      assert rest[j - 1] == w;
      WithoutAt(rest, j - 1);
      assert [ws[0]] + (rest[..j - 1] + rest[j..]) == ws[..j] + ws[j + 1..];
    }
  }

  lemma {:induction false} BeforeAt(ws: seq<Window>, w: Window, i: nat)
    requires Distinct(ws) && i < |ws|
    ensures Before(ws, w, ws[i]) == ws[..i] + [w] + ws[i..]
  {
    if i == 0 {
      assert [w] + ws == ws[..0] + [w] + ws[0..];
    } else {
      var rest := ws[1..];
      assert ws[0] != ws[i] == rest[i - 1];
      BeforeAt(rest, w, i - 1);
      assert [ws[0]] + (rest[..i - 1] + [w] + rest[i - 1..]) == ws[..i] + [w] + ws[i..];
    }
  }

  /** A window from further back, moved in front of the `i`-th one. */
  lemma MovedAt(ws: seq<Window>, i: nat, j: nat)
    requires Distinct(ws) && i < j < |ws|
    ensures Moved(ws, ws[j], ws[i]) == ws[..i] + [ws[j]] + ws[i..j] + ws[j + 1..]
  {
    var out := ws[..j] + ws[j + 1..];
    WithoutAt(ws, j);
    assert out[i] == ws[i];
    BeforeAt(out, ws[j], i);
    assert out[..i] == ws[..i] && out[i..] == ws[i..j] + ws[j + 1..];
  }

  /** A move keeps the windows on the screen and lengthens the part that agrees. */
  lemma MoveLengthens(host: seq<Window>, order: seq<Window>)
    requires Distinct(host) && Distinct(order) && forall w <- host :: w in order
    requires Matching(host, order) < |host|
    ensures var k := Matching(host, order);
            && k < |order|
            && var next := Moved(order, host[k], order[k]);
               && Matching(host, next) > k
               && Distinct(next) && (forall w :: w in next <==> w in order) && |next| == |order|
  {
    hide Matching, Moved, Distinct;
    var k := Matching(host, order);
    var j := FoundBehind(host, order, k);
    MovedAt(order, k, j);
    var next := Moved(order, host[k], order[k]);
    Rotated(order, k, j, next);
    assert next[..k + 1] == host[..k + 1];
    AtLeast(host, next, k + 1);
  }

  /** Where the window that is missing from place `k` has to be. */
  lemma FoundBehind(host: seq<Window>, order: seq<Window>, k: nat) returns (j: nat)
    requires Distinct(host) && k < |host| && host[k] in order && k <= |order| && host[..k] == order[..k]
    requires k < |order| ==> host[k] != order[k]
    ensures k < j < |order| && order[j] == host[k]
  {
    j :| j < |order| && order[j] == host[k];
    forall i: nat | i < k
      ensures order[i] != host[k]
    {
      assert order[i] == order[..k][i] == host[..k][i] == host[i];
    }
  }

  lemma Rotated(ws: seq<Window>, i: nat, j: nat, r: seq<Window>)
    requires Distinct(ws) && i < j < |ws| && r == ws[..i] + [ws[j]] + ws[i..j] + ws[j + 1..]
    ensures |r| == |ws| && r[..i] == ws[..i] && r[i] == ws[j]
    ensures Distinct(r) && forall w :: w in r <==> w in ws
  {
    assert forall p: nat :: p < |ws| ==> r[p] == ws[From(i, j, p)];
    forall p: nat, q: nat | p < q < |r|
      ensures r[p] != r[q]
    {
      assert ws[From(i, j, p)] != ws[From(i, j, q)];
    }
    forall w
      ensures w in r <==> w in ws
    {
      if w in ws {
        var p: nat :| p < |ws| && ws[p] == w;
        var q := if p == j then i else if i <= p < j then p + 1 else p;
        assert r[q] == w;
      }
    }
  }

  /** Where the window now at `p` was. */
  function From(i: nat, j: nat, p: nat): nat {
    if p == i then j else if i < p <= j then p - 1 else p
  }

  lemma {:induction false} AtLeast(host: seq<Window>, order: seq<Window>, k: nat)
    requires k <= |host| && k <= |order| && host[..k] == order[..k]
    ensures Matching(host, order) >= k
  {
    if k > 0 {
      assert host[0] == host[..k][0] == order[..k][0] == order[0];
      assert host[1..][..k - 1] == host[..k][1..] && order[1..][..k - 1] == order[..k][1..];
      AtLeast(host[1..], order[1..], k - 1);
    }
  }

  lemma {:induction false} MatchingIs(host: seq<Window>, order: seq<Window>, k: nat)
    requires k < |host| && k < |order| && host[..k] == order[..k] && host[k] != order[k]
    ensures Matching(host, order) == k
  {
    if k > 0 {
      assert host[0] == host[..k][0] == order[..k][0] == order[0];
      assert host[1..][..k - 1] == host[..k][1..] && order[1..][..k - 1] == order[..k][1..];
      MatchingIs(host[1..], order[1..], k - 1);
    }
  }

  // ---- duplicate suppression ----

  datatype Move = Move(window: Window, behind: Window)

  const PATIENCE: nat := 99

  /** The last move asked for, and how often it has been asked for again in vain. */
  datatype Memory = Memory(last: Option<Move>, ignored: nat)

  predicate Ignores(m: Memory, move: Move) {
    m.last == Some(move) && m.ignored < PATIENCE
  }

  function Asked(m: Memory, move: Move): Memory {
    if Ignores(m, move) then m.(ignored := m.ignored + 1) else Memory(Some(move), 0)
  }

  /** The move one call asks for: the host's window at the first place where the orders differ. */
  function Wanted(host: seq<Window>, order: seq<Window>): Option<Move> {
    var k := Matching(host, order);
    if k < |host| && k < |order| then Some(Move(host[k], order[k])) else None
  }

  /** The move one call really makes. */
  function Made(m: Memory, host: seq<Window>, order: seq<Window>): Option<Move> {
    match Wanted(host, order)
    case None => None
    case Some(move) => if Ignores(m, move) then None else Some(move)
  }

  function Called(m: Memory, host: seq<Window>, order: seq<Window>): Memory {
    match Wanted(host, order)
    case None => m
    case Some(move) => Asked(m, move)
  }

  function Effect(order: seq<Window>, made: Option<Move>): seq<Window> {
    match made
    case None => order
    case Some(move) => Moved(order, move.window, move.behind)
  }

  /** Calls still to come before the orders agree: one for each window out of place, and those that will be ignored. */
  function CallsLeft(m: Memory, host: seq<Window>, order: seq<Window>): (c: nat)
    ensures |host| - Matching(host, order) <= c <= |host| + PATIENCE
    ensures m == Memory(None, 0) ==> c <= |host|
  {
    var ignored := match Wanted(host, order)
      case None => 0
      case Some(move) => if Ignores(m, move) then PATIENCE - m.ignored else 0;
    |host| - Matching(host, order) + ignored
  }

  lemma CallHelps(m: Memory, host: seq<Window>, order: seq<Window>)
    requires Distinct(host) && Distinct(order) && (forall w <- host :: w in order)
    ensures var (m1, next) := (Called(m, host, order), Effect(order, Made(m, host, order)));
            && Distinct(next) && (forall w <- host :: w in next)
            && (Matching(host, order) < |host| ==> CallsLeft(m1, host, next) < CallsLeft(m, host, order))
            && (Made(m, host, order).Some? ==> Matching(host, next) > Matching(host, order))
            && (Matching(host, order) == |host| ==> m1 == m && next == order)
  {
    hide Moved, Matching;
    var k := Matching(host, order);
    if k < |host| {
      MoveLengthens(host, order);
      var move := Move(host[k], order[k]);
      if !Ignores(m, move) {
        NotAgain(host, Moved(order, move.window, move.behind), k);
      }
    }
  }

  /** Once a window is in its place it is not asked for again. */
  lemma NotAgain(host: seq<Window>, order: seq<Window>, k: nat)
    requires Distinct(host) && k < |host| && Matching(host, order) > k
    ensures Wanted(host, order).Some? ==> Wanted(host, order).value.window != host[k]
  {
  }

  /** A screen over a run of calls with a stable host order, each real move having taken effect by the next call. */
  datatype Step = Step(memory: Memory, order: seq<Window>)

  function After(m: Memory, host: seq<Window>, order: seq<Window>, calls: nat): Step {
    if calls == 0 then Step(m, order) else
      var s := After(m, host, order, calls - 1);
      Step(Called(s.memory, host, s.order), Effect(s.order, Made(s.memory, host, s.order)))
  }

  lemma {:induction false} Progress(m: Memory, host: seq<Window>, order: seq<Window>, calls: nat)
    requires Distinct(host) && Distinct(order) && (forall w <- host :: w in order)
    ensures var s := After(m, host, order, calls);
            && Distinct(s.order) && (forall w <- host :: w in s.order)
            && (Matching(host, s.order) < |host| ==>
                  CallsLeft(s.memory, host, s.order) + calls <= CallsLeft(m, host, order))
  {
    hide CallsLeft, Called, Effect, Made, Matching;
    if calls > 0 {
      Progress(m, host, order, calls - 1);
      var s := After(m, host, order, calls - 1);
      CallHelps(s.memory, host, s.order);
    }
  }

  /** The windows reach the host's order within n + 99 calls, and from then on nothing is moved. */
  lemma Converges(m: Memory, host: seq<Window>, order: seq<Window>, calls: nat)
    requires Distinct(host) && Distinct(order) && (forall w <- host :: w in order)
    requires calls >= |host| + PATIENCE
    ensures var s := After(m, host, order, calls);
            && |host| <= |s.order| && s.order[..|host|] == host
            && Made(s.memory, host, s.order) == None
            && After(m, host, order, calls + 1) == s
  {
    hide Called, Effect, Matching, After;
    Progress(m, host, order, calls);
    var s := After(m, host, order, calls);
    assert host[..|host|] == host;
    CallHelps(s.memory, host, s.order);
    AfterOne(m, host, order, calls);
  }

  lemma AfterOne(m: Memory, host: seq<Window>, order: seq<Window>, calls: nat)
    ensures var s := After(m, host, order, calls);
            After(m, host, order, calls + 1) ==
            Step(Called(s.memory, host, s.order), Effect(s.order, Made(s.memory, host, s.order)))
  {
  }

  /** Without a remembered move in the way, one call for each window is enough. */
  lemma FreshConverges(host: seq<Window>, order: seq<Window>)
    requires Distinct(host) && Distinct(order) && (forall w <- host :: w in order)
    ensures Matching(host, After(Memory(None, 0), host, order, |host|).order) == |host|
  {
    hide Matching, After, Called, Effect;
    Progress(Memory(None, 0), host, order, |host|);
  }
}

/** The daemon's walk over the layers of a screen. */
module SyncWindows {
  import opened Wrappers
  import opened WindowOrder

  /** A layer, linked to the one in front of it and the one behind it; not every layer belongs to a window. */
  class Layer {
    const window: Option<Window>
    var front: Layer?
    var back: Layer?

    constructor (w: Option<Window>)
      ensures window == w && front == null && back == null
    {
      window, front, back := w, null, null;
    }
  }

  /** The layers of a screen from the front to the back. */
  ghost predicate Linked(ls: seq<Layer>)
    reads ls
  {
    && (forall i: nat {:trigger ls[i].front} :: i < |ls| ==> ls[i].front == if i > 0 then ls[i - 1] else null)
    && (forall i: nat {:trigger ls[i].back} :: i < |ls| ==> ls[i].back == if i + 1 < |ls| then ls[i + 1] else null)
  }

  /** The windows of the layers; a window with several layers in a row counts once, layers of no window do not count. */
  ghost function Windows(ls: seq<Layer>): seq<Window> {
    if ls == [] then []
    else if ls[0].window.None? || (|ls| > 1 && ls[0].window == ls[1].window) then Windows(ls[1..])
    else [ls[0].window.value] + Windows(ls[1..])
  }

  class Daemon {
    var oldWindow: Option<Window>
    var oldBehind: Option<Window>
    var counter: nat

    ghost predicate Valid()
      reads this
    {
      (oldWindow.Some? <==> oldBehind.Some?) && counter <= PATIENCE
    }

    ghost function Remembered(): Memory
      requires Valid()
      reads this
    {
      Memory(if oldWindow.Some? then Some(Move(oldWindow.value, oldBehind.value)) else None, counter)
    }

    /** init_sync_windows */
    constructor ()
      ensures Valid() && Remembered() == Memory(None, 0)
    {
      oldWindow, oldBehind, counter := None, None, 0;
    }

    /** my_MoveWindowInFrontOf; `open` are the windows nobody has closed in the meantime. */
    method MoveWindowInFrontOf(w: Window, b: Window, open: set<Window>) returns (made: Option<Move>)
      requires Valid()
      modifies this
      ensures Valid() && Remembered() == Asked(old(Remembered()), Move(w, b))
      ensures made == if Ignores(old(Remembered()), Move(w, b)) || w !in open || b !in open then None else Some(Move(w, b))
    {
      if Some(w) == oldWindow && Some(b) == oldBehind && counter < 99 {
        counter := counter + 1;
        return None;
      }
      if counter > 0 {
        counter := 0;
      }
      oldWindow, oldBehind := Some(w), Some(b);
      if w !in open || b !in open {
        return None;
      }
      return Some(Move(w, b));
    }

    /** sync_windows: from any layer of the screen to the frontmost one, then back to the first window out of order. */
    method SyncWindows(host: seq<Window>, start: Layer, open: set<Window>, ghost ls: seq<Layer>) returns (made: Option<Move>)
      requires Valid() && Linked(ls) && start in ls
      modifies this
      ensures Valid() && Remembered() == Called(old(Remembered()), host, Windows(ls))
      ensures (forall w <- host :: w in open) && (forall w <- Windows(ls) :: w in open) ==>
                made == Made(old(Remembered()), host, Windows(ls))
    {
      hide Matching, Made, Called;
      made := None;
      if host == [] {
        NoDifference(host, Windows(ls), 0, Remembered());
        return;
      }
      var layer: Layer? := FrontMost(start, ls);
      ghost var n := 0;
      var i := 0;
      ghost var order := Windows(ls);
      assert ls[0..] == ls && order[0..] == order;
      while layer != null && i < |host|
        invariant n <= |ls| && layer == if n < |ls| then ls[n] else null
        invariant i <= |host| && i <= |order| && Windows(ls[n..]) == order[i..] && host[..i] == order[..i]
        invariant Valid() && Remembered() == old(Remembered())
        decreases |ls| - n
      {
        if layer.window.Some? {
          WindowAhead(ls, n);
          assert order[i] == layer.window.value;
          if host[i] != layer.window.value {
            FirstDifference(host, order, i, Remembered());
            made := MoveWindowInFrontOf(host[i], layer.window.value, open);
            return;
          }
          assert host[..i + 1] == order[..i + 1];
          i := i + 1;
          ghost var n0 := n;
          while layer.back != null && layer.window == layer.back.window
            invariant n0 <= n < |ls| && layer == ls[n] && layer.window.Some? && Windows(ls[n..]) == order[i - 1..]
            invariant Valid() && Remembered() == old(Remembered())
            decreases |ls| - n
          {
            assert ls[n..][1..] == ls[n + 1..];
            layer := layer.back;
            n := n + 1;
          }
          LastLayer(ls, n);
          assert order[i - 1..][1..] == order[i..];
        }
        assert ls[n..][1..] == ls[n + 1..];
        layer := layer.back;
        n := n + 1;
      }
      NoDifference(host, order, i, Remembered());
    }

    static lemma FirstDifference(host: seq<Window>, order: seq<Window>, i: nat, m: Memory)
      requires i < |host| && i < |order| && host[..i] == order[..i] && host[i] != order[i]
      ensures var move := Move(host[i], order[i]);
              && Called(m, host, order) == Asked(m, move)
              && Made(m, host, order) == if Ignores(m, move) then None else Some(move)
    {
      MatchingIs(host, order, i);
    }

    static lemma NoDifference(host: seq<Window>, order: seq<Window>, i: nat, m: Memory)
      requires i <= |host| && i <= |order| && host[..i] == order[..i] && (i == |host| || order[i..] == [])
      ensures Called(m, host, order) == m && Made(m, host, order) == None
    {
      AtLeast(host, order, i);
    }

    /** A window's layers, whatever their number, stand for its one place in the order. */
    static lemma {:induction false} WindowAhead(ls: seq<Layer>, n: nat)
      requires n < |ls| && ls[n].window.Some?
      ensures Windows(ls[n..]) != [] && Windows(ls[n..])[0] == ls[n].window.value
      decreases |ls| - n
    {
      assert ls[n..][1..] == ls[n + 1..];
      if n + 1 < |ls| && ls[n].window == ls[n + 1].window {
        WindowAhead(ls, n + 1);
      }
    }

    static lemma LastLayer(ls: seq<Layer>, n: nat)
      requires n < |ls| && ls[n].window.Some? && !(n + 1 < |ls| && ls[n].window == ls[n + 1].window)
      ensures Windows(ls[n..]) == [ls[n].window.value] + Windows(ls[n + 1..])
    {
      assert ls[n..][1..] == ls[n + 1..];
    }

    /** while (layer->front) ... */
    method FrontMost(start: Layer, ghost ls: seq<Layer>) returns (layer: Layer)
      requires Linked(ls) && start in ls
      ensures layer == ls[0]
    {
      layer := start;
      ghost var n: nat :| n < |ls| && ls[n] == start;
      while layer.front != null
        invariant n < |ls| && layer == ls[n]
        decreases n
      {
        layer := layer.front;
        n := n - 1;
      }
    }
  }
}
