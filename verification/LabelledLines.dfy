/** Texts made of lines `id: value`, each ended by a line break, and one last line. Values may hold line
    breaks; this is exactly when they can still be read back. */
module LabelledLines {
  import opened Text

  function Written(ids: seq<string>, values: seq<string>, last: string): string
    requires |values| == |ids|
  {
    if ids == [] then last
    else ids[0] + ": " + values[0] + "\n" + Written(ids[1..], values[1..], last)
  }

  /** What separates the value before `id` from the value of `id`. */
  function Mark(id: string): string {
    "\n" + id + ": "
  }

  ghost predicate Occurs(mark: string, s: string, i: nat) {
    i + |mark| <= |s| && s[i..i + |mark|] == mark
  }

  ghost predicate Contains(s: string, mark: string) {
    exists i: nat :: Occurs(mark, s, i)
  }

  /** The mark of some line but the first occurs inside its own value or inside the value before. */
  ghost predicate Splittable(ids: seq<string>, values: seq<string>)
    requires |values| == |ids|
  {
    exists k :: 0 < k < |ids| && SplittableAt(ids, values, k)
  }

  ghost predicate SplittableAt(ids: seq<string>, values: seq<string>, k: nat)
    requires |values| == |ids| && 0 < k < |ids|
  {
    Contains(values[k - 1], Mark(ids[k])) || Contains(values[k], Mark(ids[k]))
  }

  ghost predicate Reads(ids: seq<string>, values: seq<string>, last: string, text: string) {
    |values| == |ids| && Written(ids, values, last) == text
  }

  ghost predicate OneLined(ids: seq<string>, last: string) {
    Free('\n', last) && forall id :: id in ids ==> Free('\n', id)
  }

  // ---------- unless a value is splittable, it is read back ----------

  /** The text from the first value on. */
  function Tail(ids: seq<string>, values: seq<string>, last: string): string
    requires |values| == |ids| > 0
  {
    values[0] + "\n" + Written(ids[1..], values[1..], last)
  }

  lemma TailStep(ids: seq<string>, values: seq<string>, last: string)
    requires |values| == |ids| > 1
    ensures Tail(ids, values, last) == values[0] + Mark(ids[1]) + Tail(ids[1..], values[1..], last)
  {
    var rest := Written(ids[2..], values[2..], last);
    assert ids[1..][1..] == ids[2..] && values[1..][1..] == values[2..];
    assert Written(ids[1..], values[1..], last) == ids[1] + ": " + values[1] + "\n" + rest;
    assert values[0] + "\n" + (ids[1] + ": " + values[1] + "\n" + rest)
        == values[0] + ("\n" + ids[1] + ": ") + (values[1] + "\n" + rest);
  }

  /** A one-line mark that stands before two different texts lies inside the longer one. */
  lemma MarkInside(a: string, b: string, id: string, x: string, y: string)
    requires Free('\n', id) && a + Mark(id) + x == b + Mark(id) + y && |a| < |b|
    ensures |a| + |Mark(id)| <= |b| && Occurs(Mark(id), b, |a|)
    ensures x == b[|a| + |Mark(id)|..] + Mark(id) + y
  {
    var mark := Mark(id);
    var s := a + mark + x;
    assert s == b + mark + y && s[|b|] == '\n';
    assert forall i :: 0 < i < |mark| ==> s[|a| + i] == mark[i] && mark[i] != '\n';
    assert forall j :: |a| < j < |a| + |mark| ==> s[j] == s[|a| + (j - |a|)];
    assert s[|a|..|a| + |mark|] == mark && b[|a|..|a| + |mark|] == s[|a|..|a| + |mark|];
    assert x == s[|a| + |mark|..];
  }

  lemma {:induction false} ReadBack(ids: seq<string>, v: seq<string>, w: seq<string>, last: string)
    requires |v| == |w| == |ids| > 0 && OneLined(ids, last)
    requires Tail(ids, v, last) == Tail(ids, w, last)
    ensures v == w || Splittable(ids, v)
    decreases |ids|
  {
    hide Written, Mark, Contains;
    if |ids| == 1 {
      OneValue(ids, v, w, last);
    } else {
      hide Tail;
      TailStep(ids, v, last);
      TailStep(ids, w, last);
      assert ids[1] in ids && forall id :: id in ids[1..] ==> id in ids;
      var mark, x, y := Mark(ids[1]), Tail(ids[1..], v[1..], last), Tail(ids[1..], w[1..], last);
      if |v[0]| == |w[0]| {
        assert v[0] == (v[0] + mark + x)[..|v[0]|] == w[0];
        assert x == (v[0] + mark + x)[|v[0]| + |mark|..] == y;
        ReadBack(ids[1..], v[1..], w[1..], last);
        assert v == [v[0]] + v[1..] && w == [w[0]] + w[1..];
      } else if |w[0]| < |v[0]| {
        MarkInside(w[0], v[0], ids[1], y, x);
        OwnOrNext(ids, v, |w[0]|);
      } else {
        MarkInside(v[0], w[0], ids[1], x, y);
        Regrouped(ids, v, w, last);
        var z := w[0][|v[0]| + |mark|..];
        ReadBack(ids[1..], v[1..], [z + mark + w[1]] + w[2..], last);
        if v[1..] == [z + mark + w[1]] + w[2..] {
          assert v[1] == z + mark + w[1];
          assert Occurs(mark, v[1], |z|);
          OwnOrNext(ids, v, |z|);
        }
      }
      Shift(ids, v);
    }
  }

  lemma OneValue(ids: seq<string>, v: seq<string>, w: seq<string>, last: string)
    requires |v| == |w| == |ids| == 1 && Tail(ids, v, last) == Tail(ids, w, last)
    ensures v == w
  {
    var s := Tail(ids, v, last);
    assert v[0] == s[..|s| - |last| - 1] == w[0];
    assert v == [v[0]] && w == [w[0]];
  }

  lemma OwnOrNext(ids: seq<string>, v: seq<string>, i: nat)
    requires |v| == |ids| > 1 && (Occurs(Mark(ids[1]), v[0], i) || Occurs(Mark(ids[1]), v[1], i))
    ensures Splittable(ids, v)
  {
    assert SplittableAt(ids, v, 1);
  }

  lemma Shift(ids: seq<string>, v: seq<string>)
    requires |v| == |ids| > 1
    ensures Splittable(ids[1..], v[1..]) ==> Splittable(ids, v)
  {
    hide Contains;
    if Splittable(ids[1..], v[1..]) {
      var k :| 0 < k < |ids| - 1 && SplittableAt(ids[1..], v[1..], k);
      assert SplittableAt(ids, v, k + 1);
    }
  }

  /** What follows the first value of `v` is a text whose first value takes in a mark. */
  lemma Regrouped(ids: seq<string>, v: seq<string>, w: seq<string>, last: string)
    requires |v| == |w| == |ids| > 1
    requires |v[0]| + |Mark(ids[1])| <= |w[0]|
    ensures var z := w[0][|v[0]| + |Mark(ids[1])|..];
            Tail(ids[1..], [z + Mark(ids[1]) + w[1]] + w[2..], last)
            == z + Mark(ids[1]) + Tail(ids[1..], w[1..], last)
  {
    hide Written;
    var mark := Mark(ids[1]);
    var z := w[0][|v[0]| + |mark|..];
    var u := [z + mark + w[1]] + w[2..];
    assert u[1..] == w[2..] == w[1..][1..];
    var rest := Written(ids[1..][1..], w[2..], last);
    hide Mark;
    assert z + mark + w[1] + "\n" + rest == z + mark + (w[1] + "\n" + rest);
  }

  // ---------- a splittable value is not ----------

  lemma {:induction false} SameStart(ids: seq<string>, v: seq<string>, w: seq<string>, last: string, j: nat)
    requires |v| == |w| == |ids| && j <= |ids| && v[..j] == w[..j]
    requires Written(ids[j..], v[j..], last) == Written(ids[j..], w[j..], last)
    ensures Written(ids, v, last) == Written(ids, w, last)
  {
    if j == 0 {
      assert ids[0..] == ids && v[0..] == v && w[0..] == w;
    } else {
      assert v[0] == v[..j][0] == w[..j][0] == w[0];
      assert v[1..][..j - 1] == v[..j][1..] == w[1..][..j - 1];
      assert ids[1..][j - 1..] == ids[j..] && v[1..][j - 1..] == v[j..] && w[1..][j - 1..] == w[j..];
      SameStart(ids[1..], v[1..], w[1..], last, j - 1);
    }
  }

  /** The mark of line `k` moved from inside a value to where values meet, or the other way round. */
  lemma Moved(ids: seq<string>, v: seq<string>, w: seq<string>, last: string, k: nat)
    requires |v| == |w| == |ids| && 0 < k < |ids|
    requires v[..k - 1] == w[..k - 1] && v[k + 1..] == w[k + 1..]
    requires v[k - 1] + Mark(ids[k]) + v[k] == w[k - 1] + Mark(ids[k]) + w[k]
    ensures Written(ids, v, last) == Written(ids, w, last)
  {
    TwoLines(ids, v, last, k);
    TwoLines(ids, w, last, k);
    SameStart(ids, v, w, last, k - 1);
  }

  lemma TwoLines(ids: seq<string>, v: seq<string>, last: string, k: nat)
    requires |v| == |ids| && 0 < k < |ids|
    ensures Written(ids[k - 1..], v[k - 1..], last)
         == ids[k - 1] + ": " + (v[k - 1] + Mark(ids[k]) + v[k]) + "\n" + Written(ids[k + 1..], v[k + 1..], last)
  {
    var i, u := ids[k - 1..], v[k - 1..];
    assert i[1..] == ids[k..] && i[1..][1..] == ids[k + 1..] && u[1..] == v[k..] && u[1..][1..] == v[k + 1..];
    var rest := Written(ids[k + 1..], v[k + 1..], last);
    assert Written(ids[k..], v[k..], last) == ids[k] + ": " + v[k] + "\n" + rest;
    assert ids[k - 1] + ": " + v[k - 1] + "\n" + (ids[k] + ": " + v[k] + "\n" + rest)
        == ids[k - 1] + ": " + (v[k - 1] + ("\n" + ids[k] + ": ") + v[k]) + "\n" + rest;
  }

  lemma SplitElsewhere(ids: seq<string>, v: seq<string>, last: string, k: nat) returns (w: seq<string>)
    requires |v| == |ids| && 0 < k < |ids| && SplittableAt(ids, v, k)
    ensures w != v && Reads(ids, w, last, Written(ids, v, last))
  {
    hide Written, Mark;
    var mark := Mark(ids[k]);
    assert |mark| > 0 by { MarkIsNotEmpty(ids[k]); }
    if Contains(v[k - 1], mark) {
      var i: nat :| Occurs(mark, v[k - 1], i);
      var a, b := v[k - 1][..i], v[k - 1][i + |mark|..];
      assert v[k - 1] == a + mark + b;
      w := v[k - 1 := a][k := b + mark + v[k]];
      assert |w[k - 1]| < |v[k - 1]|;
      assert v[k - 1] + mark + v[k] == w[k - 1] + mark + w[k];
    } else {
      var i: nat :| Occurs(mark, v[k], i);
      var a, b := v[k][..i], v[k][i + |mark|..];
      assert v[k] == a + mark + b;
      w := v[k - 1 := v[k - 1] + mark + a][k := b];
      assert |w[k]| < |v[k]|;
      assert v[k - 1] + mark + v[k] == w[k - 1] + mark + w[k];
    }
    Moved(ids, v, w, last, k);
  }

  lemma MarkIsNotEmpty(id: string)
    ensures |Mark(id)| > 0
  {
  }

  // ---------- the exact condition ----------

  /** Other values give the same text if and only if the values are splittable. */
  lemma AmbiguousIffSplittable(ids: seq<string>, v: seq<string>, last: string)
    requires |v| == |ids| && OneLined(ids, last)
    ensures (exists w :: w != v && Reads(ids, w, last, Written(ids, v, last))) <==> Splittable(ids, v)
  {
    hide SplittableAt;
    if w :| w != v && Reads(ids, w, last, Written(ids, v, last)) {
      ReadsBack(ids, v, w, last);
    }
    if Splittable(ids, v) {
      var k :| 0 < k < |ids| && SplittableAt(ids, v, k);
      var w := SplitElsewhere(ids, v, last, k);
    }
  }

  lemma ReadsBack(ids: seq<string>, v: seq<string>, w: seq<string>, last: string)
    requires |v| == |ids| && OneLined(ids, last) && Reads(ids, w, last, Written(ids, v, last))
    ensures v == w || Splittable(ids, v)
  {
    hide Splittable;
    if ids != [] {
      FirstId(ids, v, last);
      FirstId(ids, w, last);
      hide Written, Tail;
      var n := |ids[0] + ": "|;
      assert Tail(ids, v, last) == Written(ids, v, last)[n..] == Tail(ids, w, last);
      ReadBack(ids, v, w, last);
    }
  }

  lemma FirstId(ids: seq<string>, v: seq<string>, last: string)
    requires |v| == |ids| > 0
    ensures Written(ids, v, last) == ids[0] + ": " + Tail(ids, v, last)
  {
    var rest := Written(ids[1..], v[1..], last);
    assert ids[0] + ": " + v[0] + "\n" + rest == ids[0] + ": " + (v[0] + "\n" + rest);
  }

  lemma MarkBreaks(s: string, id: string, i: nat)
    requires Occurs(Mark(id), s, i)
    ensures !Free('\n', s)
  {
    assert s[i] == s[i..i + |Mark(id)|][0] == '\n' && s[i] in s;
  }

  /** Values without line breaks are not splittable. */
  lemma PlainIsNotSplittable(ids: seq<string>, v: seq<string>)
    requires |v| == |ids| && forall x :: x in v ==> Free('\n', x)
    ensures !Splittable(ids, v)
  {
    hide Mark, Occurs;
    if k :| 0 < k < |ids| && SplittableAt(ids, v, k) {
      var x := if Contains(v[k - 1], Mark(ids[k])) then v[k - 1] else v[k];
      var i: nat :| Occurs(Mark(ids[k]), x, i);
      MarkBreaks(x, ids[k], i);
    }
  }
}
