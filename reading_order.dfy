/**
 * `getSelectionAsText`: the labels of the selected text-bearing shapes, in
 * reading order (top to bottom, then left to right), one per line.
 */
module ReadingOrder {
  import opened Wrappers
  import opened JsString
  import opened Seqs
  import opened Shapes

  /** Shapes of kind text, geo, arrow or note are read; previews and all other kinds are not. */
  predicate IsTextBearing(s: Shape)
    ensures IsTextBearing(s) <==> s.Drawn? && s.kind != Other
  {
    s.Drawn? && (s.kind == Text || s.kind == Geo || s.kind == Arrow || s.kind == Note)
  }

  /** `a` is strictly above `b`, or level with it and strictly to its left. */
  predicate Precedes(a: Shape, b: Shape) {
    a.y < b.y || (a.y == b.y && a.x < b.x)
  }

  /** `a` may stand before `b` in reading order. */
  predicate InOrder(a: Shape, b: Shape) {
    !Precedes(b, a)
  }

  predicate Ordered(xs: seq<Shape>) {
    forall i, j :: 0 <= i < j < |xs| ==> InOrder(xs[i], xs[j])
  }

  /**
   * The comparator handed to `sort`: -1 when `a` goes first, 1 otherwise,
   * which includes two shapes at the same position.
   */
  function Compare(a: Shape, b: Shape): (r: int)
    ensures r == -1 || r == 1
    ensures r == -1 <==> Precedes(a, b)
  {
    if a.y == b.y then (if a.x < b.x then -1 else 1)
    else if a.y < b.y then -1
    else 1
  }

  /** A shape that may stand before every element of an ordered sequence may lead it. */
  lemma PrependOrdered(h: Shape, t: seq<Shape>)
    requires Ordered(t)
    requires forall e :: e in t ==> InOrder(h, e)
    ensures Ordered([h] + t)
  {
    var r := [h] + t;
    forall i, j | 0 <= i < j < |r| ensures InOrder(r[i], r[j]) {
      if i == 0 {
        assert r[j] == t[j - 1];
      } else {
        assert r[i] == t[i - 1] && r[j] == t[j - 1];
      }
    }
  }

  /** A shape that may stand before the head of an ordered sequence may lead it. */
  lemma LeadOrdered(s: Shape, ys: seq<Shape>)
    requires Ordered(ys) && ys != [] && InOrder(s, ys[0])
    ensures Ordered([s] + ys)
  {
    forall e | e in ys ensures InOrder(s, e) {
      HeadFirst(ys, e);
    }
    PrependOrdered(s, ys);
  }

  /** The head of an ordered sequence may lead the tail with `s` inserted into it. */
  lemma HeadLeadsInsertion(ys: seq<Shape>, s: Shape, t: seq<Shape>)
    requires Ordered(ys) && ys != [] && Ordered(t) && InOrder(ys[0], s)
    requires multiset(t) == multiset(ys[1..]) + multiset{s}
    ensures Ordered([ys[0]] + t)
  {
    forall e | e in t ensures InOrder(ys[0], e) {
      assert e in multiset(t);
      if e != s {
        assert e in multiset(ys[1..]);
        assert e in ys[1..];
        HeadFirst(ys, e);
      }
    }
    PrependOrdered(ys[0], t);
  }

  /** Inserts `s` into an ordered sequence, before the first element that does not precede it. */
  function Insert(s: Shape, ys: seq<Shape>): (r: seq<Shape>)
    requires Ordered(ys)
    ensures Ordered(r)
    ensures multiset(r) == multiset(ys) + multiset{s}
  {
    if ys == [] then [s]
    else
      assert ys == [ys[0]] + ys[1..];
      if Compare(ys[0], s) == -1 then
        var t := Insert(s, ys[1..]);
        HeadLeadsInsertion(ys, s, t);
        [ys[0]] + t
      else
        LeadOrdered(s, ys);
        [s] + ys
  }

  /**
   * The `sort` step. The order of shapes at identical positions is left to
   * the engine's sort; only reading order is promised.
   */
  function SortByPosition(xs: seq<Shape>): (r: seq<Shape>)
    ensures Ordered(r)
    ensures multiset(r) == multiset(xs)
  {
    if xs == [] then []
    else
      assert xs == [xs[0]] + xs[1..];
      Insert(xs[0], SortByPosition(xs[1..]))
  }

  /** `shape.props.text ?? null`, with an absent text read as "" (both are dropped). */
  function TextOf(s: Shape): (r: string)
    ensures r == "" || (s.Drawn? && s.text == Some(r))
    ensures s.Drawn? && s.text.Some? ==> r == s.text.value
  {
    if s.Drawn? && s.text.Some? then s.text.value else ""
  }

  predicate HasText(s: Shape) {
    TextOf(s) != ""
  }

  /** The shapes that contribute a line. */
  predicate Contributes(s: Shape) {
    IsTextBearing(s) && HasText(s)
  }

  /**
   * Filter to text-bearing kinds, sort by position, drop shapes without
   * text: what is left is in reading order and every shape of it
   * contributes a line.
   */
  function Shown(xs: seq<Shape>): (r: seq<Shape>)
    ensures |r| <= |xs|
    ensures Ordered(r)
    ensures forall i :: 0 <= i < |r| ==> Contributes(r[i])
  {
    var sorted := SortByPosition(Filter(IsTextBearing, xs));
    FilterKeepsOrder(HasText, sorted);
    forall e | e in sorted ensures IsTextBearing(e) {
      SortedAreTextBearing(xs, e);
    }
    Filter(HasText, sorted)
  }

  /**
   * `getSelectionAsText`, given the selected shapes and their descendants:
   * the texts of `Shown(xs)` joined with newlines. It is empty exactly
   * when no shape contributes.
   */
  function SelectionAsText(xs: seq<Shape>): (r: string)
    ensures r == "" <==> Shown(xs) == []
  {
    var lines := Map(TextOf, Shown(xs));
    JoinEmpty(lines, '\n');
    Join(lines, '\n')
  }

  /** Filtering an ordered sequence keeps it ordered. */
  lemma {:induction false} FilterKeepsOrder(p: Shape -> bool, xs: seq<Shape>)
    requires Ordered(xs)
    ensures Ordered(Filter(p, xs))
  {
    if xs != [] {
      var tail := xs[1..];
      assert Ordered(tail) by {
        forall i, j | 0 <= i < j < |tail| ensures InOrder(tail[i], tail[j]) {
          assert tail[i] == xs[i + 1] && tail[j] == xs[j + 1];
        }
      }
      FilterKeepsOrder(p, tail);
      var t := Filter(p, tail);
      if p(xs[0]) {
        forall e | e in t ensures InOrder(xs[0], e) {
          var i :| 0 <= i < |t| && t[i] == e;
          assert e in tail;
          HeadFirst(xs, e);
        }
        PrependOrdered(xs[0], t);
      }
    }
  }

  /**
   * The shapes whose texts make up the result are in reading order, and
   * they are exactly the contributing shapes of the input, each as often
   * as it occurs there.
   */
  lemma ShownInReadingOrder(xs: seq<Shape>)
    ensures Ordered(Shown(xs))
    ensures multiset(Shown(xs)) == multiset(Filter(Contributes, xs))
    ensures forall i :: 0 <= i < |Shown(xs)| ==> Contributes(Shown(xs)[i])
  {
    ShownCounts(xs);
  }

  /** Each shape occurs in `Shown(xs)` as often as it contributes in `xs`. */
  lemma ShownCounts(xs: seq<Shape>)
    ensures multiset(Shown(xs)) == multiset(Filter(Contributes, xs))
  {
    var kept := Filter(IsTextBearing, xs);
    var sorted := SortByPosition(kept);
    forall e ensures multiset(Shown(xs))[e] == multiset(Filter(Contributes, xs))[e] {
      assert multiset(sorted)[e] == multiset(kept)[e];
    }
  }

  /** Sorting brings in no shape that the kind filter dropped. */
  lemma SortedAreTextBearing(xs: seq<Shape>, e: Shape)
    requires e in SortByPosition(Filter(IsTextBearing, xs))
    ensures IsTextBearing(e)
  {
    var kept := Filter(IsTextBearing, xs);
    assert e in multiset(SortByPosition(kept));
    assert e in multiset(kept);
  }

  /**
   * When the shapes are single-line, each line of the extracted text is the
   * text of one contributing shape, in reading order.
   */
  lemma LinesAreShownTexts(xs: seq<Shape>)
    requires Shown(xs) != []
    requires forall s :: s in xs ==> '\n' !in TextOf(s)
    ensures Split(SelectionAsText(xs), '\n') == Map(TextOf, Shown(xs))
  {
    var lines := Map(TextOf, Shown(xs));
    forall i | 0 <= i < |lines| ensures '\n' !in lines[i] {
      var e := Shown(xs)[i];
      ShownInReadingOrder(xs);
      assert e in multiset(Shown(xs));
      assert e in multiset(xs);
    }
    SplitJoin(lines, '\n');
  }

  /** Shapes at the same position. */
  predicate SamePosition(a: Shape, b: Shape) {
    a.x == b.x && a.y == b.y
  }

  /** An ordered sequence starts with a shape that may stand before every member. */
  lemma HeadFirst(a: seq<Shape>, e: Shape)
    requires Ordered(a) && e in a
    ensures InOrder(a[0], e)
  {
    var j :| 0 <= j < |a| && a[j] == e;
    if j > 0 {
      assert InOrder(a[0], a[j]);
    }
  }

  /** Two ordered arrangements of the same shapes, none sharing a position, start alike. */
  lemma HeadsAgree(a: seq<Shape>, b: seq<Shape>)
    requires Ordered(a) && Ordered(b) && a != []
    requires multiset(a) == multiset(b)
    requires forall s, t :: s in a && t in a && SamePosition(s, t) ==> s == t
    ensures b != [] && a[0] == b[0]
  {
    assert a[0] in multiset(b);
    assert b[0] in multiset(a);
    HeadFirst(a, b[0]);
    HeadFirst(b, a[0]);
    assert SamePosition(a[0], b[0]);
  }

  /** Dropping a common head from two arrangements of the same shapes leaves the same shapes. */
  lemma TailsAgree(a: seq<Shape>, b: seq<Shape>)
    requires a != [] && b != [] && a[0] == b[0]
    requires multiset(a) == multiset(b)
    ensures multiset(a[1..]) == multiset(b[1..])
  {
    assert a == [a[0]] + a[1..] && b == [b[0]] + b[1..];
    assert multiset(a[1..]) == multiset(a) - multiset{a[0]};
    assert multiset(b[1..]) == multiset(b) - multiset{b[0]};
  }

  /** Two ordered arrangements of the same shapes, none sharing a position, are equal. */
  lemma {:induction false} OrderedUnique(a: seq<Shape>, b: seq<Shape>)
    requires Ordered(a) && Ordered(b)
    requires multiset(a) == multiset(b)
    requires forall s, t :: s in a && t in a && SamePosition(s, t) ==> s == t
    ensures a == b
  {
    if a == [] {
      assert |b| == |multiset(b)| == 0;
    } else {
      HeadsAgree(a, b);
      TailsAgree(a, b);
      assert forall s :: s in a[1..] ==> s in a;
      OrderedUnique(a[1..], b[1..]);
      assert a == [a[0]] + a[1..] && b == [b[0]] + b[1..];
    }
  }

  /** No two different text-bearing shapes of `xs` share a position. */
  predicate DistinctPositions(xs: seq<Shape>) {
    forall s, t :: s in xs && t in xs && IsTextBearing(s) && IsTextBearing(t) && SamePosition(s, t) ==> s == t
  }

  /**
   * The text does not depend on the order in which the editor lists the
   * shapes, as long as no two text-bearing shapes share a position.
   */
  lemma ShuffleInvariant(xs: seq<Shape>, ys: seq<Shape>)
    requires multiset(xs) == multiset(ys)
    requires DistinctPositions(xs)
    ensures SelectionAsText(xs) == SelectionAsText(ys)
  {
    var a := SortByPosition(Filter(IsTextBearing, xs));
    var b := SortByPosition(Filter(IsTextBearing, ys));
    assert forall e :: multiset(a)[e] == multiset(b)[e];
    forall s, t | s in a && t in a && SamePosition(s, t) ensures s == t {
      assert s in multiset(Filter(IsTextBearing, xs)) && t in multiset(Filter(IsTextBearing, xs));
      assert s in multiset(xs) && t in multiset(xs);
    }
    OrderedUnique(a, b);
  }

  /** A filter that every element passes changes nothing. */
  lemma {:induction false} FilterAll(p: Shape -> bool, xs: seq<Shape>)
    requires forall i :: 0 <= i < |xs| ==> p(xs[i])
    ensures Filter(p, xs) == xs
  {
    if xs != [] {
      FilterAll(p, xs[1..]);
      assert xs == [xs[0]] + xs[1..];
    }
  }

  /** Sorting two shapes, the lower one listed first, swaps them. */
  lemma SortTwo(lower: Shape, upper: Shape)
    requires Precedes(upper, lower)
    ensures SortByPosition([lower, upper]) == [upper, lower]
  {
    var listed := [lower, upper];
    assert listed[0] == lower && listed[1..] == [upper];
    assert [upper][0] == upper && [upper][1..] == [];
    var single := SortByPosition([upper]);
    assert single == Insert(upper, []) == [upper];
    assert Compare(upper, lower) == -1;
    assert Insert(lower, single) == [upper] + Insert(lower, []);
  }

  /** Two single-line texts joined by a newline. */
  lemma JoinTwo(a: string, b: string)
    ensures Join([a, b], '\n') == a + "\n" + b
  {
    assert [a, b][1..] == [b];
  }

  /** Two contributing shapes, listed bottom first, are shown top first. */
  lemma ShownSwapped(lower: Shape, upper: Shape)
    requires Contributes(lower) && Contributes(upper) && Precedes(upper, lower)
    ensures Shown([lower, upper]) == [upper, lower]
  {
    var listed, sorted := [lower, upper], [upper, lower];
    assert listed[0] == lower && listed[1] == upper;
    FilterAll(IsTextBearing, listed);
    SortTwo(lower, upper);
    assert sorted[0] == upper && sorted[1] == lower;
    FilterAll(HasText, sorted);
  }

  /** Two contributing shapes, listed bottom first, read top line first. */
  lemma TwoLines(lower: Shape, upper: Shape)
    requires Contributes(lower) && Contributes(upper) && Precedes(upper, lower)
    ensures SelectionAsText([lower, upper]) == TextOf(upper) + "\n" + TextOf(lower)
  {
    ShownSwapped(lower, upper);
    assert Map(TextOf, [upper, lower]) == [TextOf(upper), TextOf(lower)];
    JoinTwo(TextOf(upper), TextOf(lower));
  }

  /** "World" listed before "Hello" but placed below it reads "Hello\nWorld". */
  lemma HelloWorld()
    ensures SelectionAsText([Drawn(Text, 0, 50, Some("World")), Drawn(Text, 0, 0, Some("Hello"))])
         == "Hello" + "\n" + "World"
  {
    TwoLines(Drawn(Text, 0, 50, Some("World")), Drawn(Text, 0, 0, Some("Hello")));
  }
}
