/**
 * The JavaScript string and array built-ins that `makeReal` relies on,
 * with their edge cases written out: `indexOf` answers -1 for a missing
 * marker, `slice` counts negative indices back from the end and clamps
 * both bounds, `join` and `split` use a one-element separator. They are
 * stated for any element type: `makeReal` applies the searches to
 * UTF-16 code units (`Utf16.JsText`), and `join` to the shapes' texts.
 */
module JsString {

  /** `m` occurs in `s` starting at index `i`. */
  predicate OccursAt<T(==)>(s: seq<T>, m: seq<T>, i: int) {
    0 <= i && i + |m| <= |s| && s[i..i + |m|] == m
  }

  ghost predicate Occurs<T>(s: seq<T>, m: seq<T>) {
    exists i :: OccursAt(s, m, i)
  }

  /** The search of `indexOf`, starting at `from`. */
  function IndexFrom<T(==)>(s: seq<T>, m: seq<T>, from: nat): (r: int)
    decreases |s| - from
    ensures r == -1 || from <= r
    ensures r == -1 ==> forall i :: from <= i ==> !OccursAt(s, m, i)
    ensures r != -1 ==> OccursAt(s, m, r) && forall i :: from <= i < r ==> !OccursAt(s, m, i)
  {
    if |s| < from + |m| then -1
    else if s[from..from + |m|] == m then from
    else IndexFrom(s, m, from + 1)
  }

  /** `s.indexOf(m)`: the first index at which `m` occurs in `s`, or -1. */
  function IndexOf<T(==)>(s: seq<T>, m: seq<T>): (r: int)
    ensures -1 <= r
    ensures r == -1 <==> !Occurs(s, m)
    ensures r != -1 ==> OccursAt(s, m, r) && forall i :: 0 <= i < r ==> !OccursAt(s, m, i)
  {
    IndexFrom(s, m, 0)
  }

  /** The index that `slice` uses for argument `i` on a string of length `n`. */
  function RelativeIndex(i: int, n: nat): (r: nat)
    ensures r <= n
    ensures 0 <= i <= n ==> r == i
    ensures n < i ==> r == n
    ensures i < 0 && -i <= n ==> r == n + i
    ensures i + n < 0 ==> r == 0
  {
    if i < 0 then (if n + i < 0 then 0 else n + i)
    else if n < i then n
    else i
  }

  /** `s.slice(start, end)`. */
  function Slice<T>(s: seq<T>, start: int, end: int): (r: seq<T>)
    ensures var from, to := RelativeIndex(start, |s|), RelativeIndex(end, |s|);
      && |r| == (if from < to then to - from else 0)
      && r == s[from..from + |r|]
    ensures 0 <= start <= end <= |s| ==> r == s[start..end]
  {
    var from, to := RelativeIndex(start, |s|), RelativeIndex(end, |s|);
    if from < to then s[from..to] else []
  }

  /** The number of elements of all the parts together. */
  function TotalLength<T>(parts: seq<seq<T>>): nat {
    if parts == [] then 0 else |parts[0]| + TotalLength(parts[1..])
  }

  /**
   * `parts.join(sep)`: the parts one after the other with one separator
   * between neighbours, starting with the first part.
   */
  function Join<T>(parts: seq<seq<T>>, sep: T): (r: seq<T>)
    ensures parts == [] ==> r == []
    ensures parts != [] ==> |r| == TotalLength(parts) + |parts| - 1 && parts[0] <= r
  {
    if parts == [] then []
    else if |parts| == 1 then parts[0]
    else parts[0] + [sep] + Join(parts[1..], sep)
  }

  /** The first position of `c` in `s`. */
  function FirstIndex<T(==)>(s: seq<T>, c: T): (k: nat)
    requires c in s
    ensures k < |s| && s[k] == c && c !in s[..k]
  {
    if s[0] == c then 0
    else
      var k := 1 + FirstIndex(s[1..], c);
      assert s[..k] == [s[0]] + s[1..][..k - 1];
      k
  }

  /** `s.split(sep)`: the pieces between the separators, `[""]` for "". */
  function Split<T(==)>(s: seq<T>, sep: T): (r: seq<seq<T>>)
    decreases |s|
    ensures r != []
  {
    if sep in s then
      var k := FirstIndex(s, sep);
      [s[..k]] + Split(s[k + 1..], sep)
    else [s]
  }

  /** Joining is empty only when there is nothing, or only "", to join. */
  lemma {:induction false} JoinEmpty<T>(parts: seq<seq<T>>, sep: T)
    ensures Join(parts, sep) == [] <==> parts == [] || parts == [[]]
  {
    if |parts| > 1 {
      assert |Join(parts, sep)| >= |parts[0]| + 1;
    }
  }

  /** The first separator of `head + [sep] + rest` is the one after `head` when `head` has none. */
  lemma {:induction false} FirstIndexAfter<T>(head: seq<T>, sep: T, rest: seq<T>)
    requires sep !in head
    ensures sep in head + [sep] + rest
    ensures FirstIndex(head + [sep] + rest, sep) == |head|
  {
    var s := head + [sep] + rest;
    assert s[|head|] == sep;
    if head != [] {
      assert s[1..] == head[1..] + [sep] + rest;
      FirstIndexAfter(head[1..], sep, rest);
    }
  }

  /**
   * `split` undoes `join` when no part contains the separator: the
   * pieces of the joined text are exactly the parts, in order.
   */
  lemma {:induction false} SplitJoin<T>(parts: seq<seq<T>>, sep: T)
    requires parts != []
    requires forall i :: 0 <= i < |parts| ==> sep !in parts[i]
    ensures Split(Join(parts, sep), sep) == parts
  {
    if |parts| == 1 {
      assert Join(parts, sep) == parts[0];
    } else {
      var head, rest := parts[0], Join(parts[1..], sep);
      var s := head + [sep] + rest;
      assert Join(parts, sep) == s;
      assert sep in s by { assert s[|head|] == sep; }
      var k := FirstIndex(s, sep);
      FirstIndexAfter(head, sep, rest);
      assert k == |head|;
      assert s[..k] == head;
      assert s[k + 1..] == rest;
      SplitJoin(parts[1..], sep);
    }
  }
}
