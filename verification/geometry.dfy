/** The virtual desktop: the smallest rectangle covering every attached
    monitor, which the snipping overlay sizes itself to. */
module Geometry {
  import opened Wrappers

  /** One monitor as reported by the display query: origin and size in
      virtual-desktop pixels. */
  datatype Monitor = Monitor(x: int, y: int, width: int, height: int) {
    function Right(): int { x + width }
    function Bottom(): int { y + height }
  }

  /** A window geometry: origin plus width and height. */
  datatype Rect = Rect(x: int, y: int, width: int, height: int) {
    function Right(): int { x + width }
    function Bottom(): int { y + height }

    /** The monitor lies entirely within this rectangle. */
    predicate Covers(m: Monitor) {
      x <= m.x && y <= m.y && m.Right() <= Right() && m.Bottom() <= Bottom()
    }
  }

  /** The least element of a non-empty sequence. */
  function MinOf(s: seq<int>): (r: int)
    requires |s| > 0
    ensures r in s
    ensures forall i :: 0 <= i < |s| ==> r <= s[i]
  {
    if |s| == 1 then s[0]
    else
      var m := MinOf(s[1..]);
      if s[0] <= m then s[0] else m
  }

  /** The greatest element of a non-empty sequence. */
  function MaxOf(s: seq<int>): (r: int)
    requires |s| > 0
    ensures r in s
    ensures forall i :: 0 <= i < |s| ==> s[i] <= r
  {
    if |s| == 1 then s[0]
    else
      var m := MaxOf(s[1..]);
      if m <= s[0] then s[0] else m
  }

  function Lefts(ms: seq<Monitor>): (r: seq<int>)
    ensures |r| == |ms| && forall i :: 0 <= i < |ms| ==> r[i] == ms[i].x
  {
    seq(|ms|, i requires 0 <= i < |ms| => ms[i].x)
  }

  function Tops(ms: seq<Monitor>): (r: seq<int>)
    ensures |r| == |ms| && forall i :: 0 <= i < |ms| ==> r[i] == ms[i].y
  {
    seq(|ms|, i requires 0 <= i < |ms| => ms[i].y)
  }

  function Rights(ms: seq<Monitor>): (r: seq<int>)
    ensures |r| == |ms| && forall i :: 0 <= i < |ms| ==> r[i] == ms[i].Right()
  {
    seq(|ms|, i requires 0 <= i < |ms| => ms[i].Right())
  }

  function Bottoms(ms: seq<Monitor>): (r: seq<int>)
    ensures |r| == |ms| && forall i :: 0 <= i < |ms| ==> r[i] == ms[i].Bottom()
  {
    seq(|ms|, i requires 0 <= i < |ms| => ms[i].Bottom())
  }

  /** The overlay geometry computed when the snipping widget is built: the
      origin is the componentwise minimum of the monitor origins, and the size
      reaches from there to the furthest right and bottom monitor edges. With
      no monitor at all the column-wise minimum has nothing to reduce and
      fails, which is `None` here. */
  function VirtualDesktop(ms: seq<Monitor>): (r: Option<Rect>)
    ensures r.None? <==> |ms| == 0
  {
    if |ms| == 0 then None
    else
      var x := MinOf(Lefts(ms));
      var y := MinOf(Tops(ms));
      var w := MaxOf(Rights(ms));
      var h := MaxOf(Bottoms(ms));
      Some(Rect(x, y, w - x, h - y))
  }

  /** The origin is attained by some monitor and lies left of and above all
      of them. */
  lemma VirtualDesktopOrigin(ms: seq<Monitor>)
    requires |ms| > 0
    ensures VirtualDesktop(ms).Some?
    ensures exists i :: 0 <= i < |ms| && ms[i].x == VirtualDesktop(ms).value.x
    ensures exists i :: 0 <= i < |ms| && ms[i].y == VirtualDesktop(ms).value.y
    ensures forall i :: 0 <= i < |ms| ==>
      VirtualDesktop(ms).value.x <= ms[i].x && VirtualDesktop(ms).value.y <= ms[i].y
  {
    var r := VirtualDesktop(ms).value;
    var xs, ys := Lefts(ms), Tops(ms);
    assert r.x == MinOf(xs) && r.y == MinOf(ys);
    var i :| 0 <= i < |xs| && xs[i] == r.x;
    var j :| 0 <= j < |ys| && ys[j] == r.y;
  }

  /** The far edges are attained by some monitor and bound all of them. */
  lemma VirtualDesktopExtent(ms: seq<Monitor>)
    requires |ms| > 0
    ensures VirtualDesktop(ms).Some?
    ensures exists i :: 0 <= i < |ms| && ms[i].Right() == VirtualDesktop(ms).value.Right()
    ensures exists i :: 0 <= i < |ms| && ms[i].Bottom() == VirtualDesktop(ms).value.Bottom()
    ensures forall i :: 0 <= i < |ms| ==>
      ms[i].Right() <= VirtualDesktop(ms).value.Right() && ms[i].Bottom() <= VirtualDesktop(ms).value.Bottom()
  {
    var r := VirtualDesktop(ms).value;
    var rs, bs := Rights(ms), Bottoms(ms);
    assert r.Right() == MaxOf(rs) && r.Bottom() == MaxOf(bs);
    var i :| 0 <= i < |rs| && rs[i] == r.Right();
    var j :| 0 <= j < |bs| && bs[j] == r.Bottom();
  }

  /** Every monitor lies inside the overlay. */
  lemma VirtualDesktopCovers(ms: seq<Monitor>)
    requires |ms| > 0
    ensures VirtualDesktop(ms).Some?
    ensures forall i :: 0 <= i < |ms| ==> VirtualDesktop(ms).value.Covers(ms[i])
  {
    VirtualDesktopOrigin(ms);
    VirtualDesktopExtent(ms);
  }

  /** No rectangle with a larger origin or a smaller far edge covers every
      monitor: the virtual desktop is the least covering rectangle. */
  lemma VirtualDesktopIsSmallest(ms: seq<Monitor>, q: Rect)
    requires |ms| > 0
    requires forall i :: 0 <= i < |ms| ==> q.Covers(ms[i])
    ensures VirtualDesktop(ms).Some?
    ensures q.x <= VirtualDesktop(ms).value.x && q.y <= VirtualDesktop(ms).value.y
    ensures VirtualDesktop(ms).value.Right() <= q.Right()
    ensures VirtualDesktop(ms).value.Bottom() <= q.Bottom()
  {
    VirtualDesktopOrigin(ms);
    VirtualDesktopExtent(ms);
    var r := VirtualDesktop(ms).value;
    var i :| 0 <= i < |ms| && ms[i].x == r.x;
    assert q.Covers(ms[i]);
    var j :| 0 <= j < |ms| && ms[j].y == r.y;
    assert q.Covers(ms[j]);
    var k :| 0 <= k < |ms| && ms[k].Right() == r.Right();
    assert q.Covers(ms[k]);
    var l :| 0 <= l < |ms| && ms[l].Bottom() == r.Bottom();
    assert q.Covers(ms[l]);
  }

  /** Two equal monitors side by side, the second starting where the first
      ends, span twice the width and the common height. */
  lemma SideBySide(w: int, h: int)
    requires w >= 0
    ensures VirtualDesktop([Monitor(0, 0, w, h), Monitor(w, 0, w, h)]) == Some(Rect(0, 0, 2 * w, h))
  {
    var ms := [Monitor(0, 0, w, h), Monitor(w, 0, w, h)];
    VirtualDesktopOrigin(ms);
    VirtualDesktopExtent(ms);
    var r := VirtualDesktop(ms).value;
    // each edge is attained by one of the two monitors and bounds both
    assert r.x == 0 by { assert r.x <= ms[0].x; }
    assert r.y == 0 by { assert r.y <= ms[0].y; }
    assert r.Right() == 2 * w by { assert ms[1].Right() <= r.Right(); }
    assert r.Bottom() == h by { assert ms[0].Bottom() <= r.Bottom(); }
  }

  /** Two full-HD monitors side by side span 3840 by 1080 pixels. */
  lemma SideBySideExample()
    ensures VirtualDesktop([Monitor(0, 0, 1920, 1080), Monitor(1920, 0, 1920, 1080)])
            == Some(Rect(0, 0, 3840, 1080))
  {
    SideBySide(1920, 1080);
  }
}
