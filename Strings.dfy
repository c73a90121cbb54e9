/**
 * Specification functions over strings used by the query builders and the
 * table formatter: joining with a separator, the "append every element
 * followed by a separator" accumulation the builders perform before they
 * trim, splitting at a character, and repetition.
 *
 * Sequence-building functions recurse on the LAST element so that they
 * follow the order in which the source's loops append.
 */
module Strings {

  /** The elements of `items` with `sep` between neighbours. */
  function Join(items: seq<string>, sep: string): string
  {
    if |items| == 0 then ""
    else if |items| == 1 then items[0]
    else Join(items[..|items| - 1], sep) + sep + items[|items| - 1]
  }

  /** Every element of `items` followed by `sep`: what `query += item + sep` builds. */
  function Terminated(items: seq<string>, sep: string): string
  {
    if |items| == 0 then ""
    else Terminated(items[..|items| - 1], sep) + items[|items| - 1] + sep
  }

  /** The pieces of `s` between occurrences of `c` (always at least one piece). */
  function Split(s: string, c: char): (pieces: seq<string>)
    ensures |pieces| > 0
  {
    if |s| == 0 then [""]
    else if s[0] == c then [""] + Split(s[1..], c)
    else
      var rest := Split(s[1..], c);
      [[s[0]] + rest[0]] + rest[1..]
  }

  /** `s` concatenated `n` times; no copy at all when `n <= 0`. */
  function Repeated(s: string, n: int): string
    decreases if n <= 0 then 0 else n
  {
    if n <= 0 then "" else Repeated(s, n - 1) + s
  }

  /** Whether character `c` occurs in none of `items`. */
  predicate NoneContains(items: seq<string>, c: char)
  {
    forall k :: 0 <= k < |items| ==> c !in items[k]
  }

  /** One more loop step: the accumulation grows by the element and one separator. */
  lemma TerminatedSnoc(xs: seq<string>, x: string, sep: string)
    ensures Terminated(xs + [x], sep) == Terminated(xs, sep) + (x + sep)
  {
    assert (xs + [x])[..|xs|] == xs;
  }

  /** One more loop step over a prefix of `items`. */
  lemma TerminatedStep(items: seq<string>, i: nat, sep: string)
    requires i < |items|
    ensures Terminated(items[..i + 1], sep) == Terminated(items[..i], sep) + (items[i] + sep)
  {
    assert items[..i + 1] == items[..i] + [items[i]];
    TerminatedSnoc(items[..i], items[i], sep);
  }

  /** Regrouping a concatenation. */
  lemma AppendAssoc(a: string, b: string, c: string)
    ensures a + (b + c) == (a + b) + c
  {
  }

  /** Appending one element after the other: the accumulation distributes over `+`. */
  lemma {:induction false} TerminatedAppend(xs: seq<string>, ys: seq<string>, sep: string)
    ensures Terminated(xs + ys, sep) == Terminated(xs, sep) + Terminated(ys, sep)
    decreases |ys|
  {
    if |ys| == 0 {
      assert xs + ys == xs;
    } else {
      var init := ys[..|ys| - 1];
      assert (xs + ys)[..|xs + ys| - 1] == xs + init;
      TerminatedAppend(xs, init, sep);
    }
  }

  /**
   * For a non-empty list, the accumulated text is the joined text plus one
   * trailing separator: cutting `|sep|` characters off the end leaves exactly
   * the join.
   */
  lemma {:induction false} TerminatedIsJoinPlusSep(items: seq<string>, sep: string)
    requires |items| > 0
    ensures Terminated(items, sep) == Join(items, sep) + sep
    ensures |Terminated(items, sep)| >= |sep|
    ensures Terminated(items, sep)[..|Terminated(items, sep)| - |sep|] == Join(items, sep)
    decreases |items|
  {
    var init := items[..|items| - 1];
    if |items| == 1 {
      assert Terminated(init, sep) == "";
    } else {
      TerminatedIsJoinPlusSep(init, sep);
    }
    var t := Terminated(items, sep);
    assert t[..|t| - |sep|] == Join(items, sep);
  }

  /** A join is every element but the last, each followed by `sep`, then the last element. */
  lemma JoinAsTerminated(items: seq<string>, sep: string)
    requires |items| > 0
    ensures Join(items, sep) == Terminated(items[..|items| - 1], sep) + items[|items| - 1]
  {
    var init := items[..|items| - 1];
    if |items| > 1 {
      TerminatedIsJoinPlusSep(init, sep);
    }
  }

  /** Splitting a text with no `c` in it yields that text as the only piece. */
  lemma {:induction false} SplitWithout(s: string, c: char)
    requires c !in s
    ensures Split(s, c) == [s]
    decreases |s|
  {
    if |s| > 0 {
      assert c !in s[1..] by {
        forall k | 0 <= k < |s[1..]| ensures s[1..][k] != c { assert s[1..][k] == s[k + 1]; }
      }
      SplitWithout(s[1..], c);
      assert [s[0]] + s[1..] == s;
    }
  }

  /** Splitting at an occurrence of `c` splits the pieces there. */
  lemma {:induction false} SplitAt(a: string, b: string, c: char)
    ensures Split(a + [c] + b, c) == Split(a, c) + Split(b, c)
    decreases |a|
  {
    if |a| == 0 {
      assert a + [c] + b == [c] + b;
      assert ([c] + b)[1..] == b;
    } else {
      var s := a + [c] + b;
      assert s[0] == a[0];
      assert s[1..] == a[1..] + [c] + b;
      SplitAt(a[1..], b, c);
    }
  }

  /**
   * Round trip: when no element contains the separator character, splitting
   * the joined text gives back the elements.
   */
  lemma {:induction false} SplitJoin(items: seq<string>, c: char)
    requires |items| > 0
    requires NoneContains(items, c)
    ensures Split(Join(items, [c]), c) == items
    decreases |items|
  {
    var n := |items|;
    SplitWithout(items[n - 1], c);
    if n > 1 {
      var init := items[..n - 1];
      SplitJoin(init, c);
      SplitAt(Join(init, [c]), items[n - 1], c);
      assert init + [items[n - 1]] == items;
    }
  }

  /** `Repeated` has `n` copies of `s`: its length is `n * |s|`, or 0 when `n <= 0`. */
  lemma {:induction false} RepeatedLength(s: string, n: int)
    ensures |Repeated(s, n)| == (if n <= 0 then 0 else n * |s|)
    decreases if n <= 0 then 0 else n
  {
    if n > 0 {
      RepeatedLength(s, n - 1);
      assert (n - 1) * |s| + |s| == n * |s|;
    }
  }

  /** A repeated single character has one character per repetition, all of them `c`. */
  lemma {:induction false} RepeatedChar(c: char, n: int)
    ensures |Repeated([c], n)| == (if n <= 0 then 0 else n)
    ensures forall k :: 0 <= k < |Repeated([c], n)| ==> Repeated([c], n)[k] == c
    decreases if n <= 0 then 0 else n
  {
    if n > 0 {
      RepeatedChar(c, n - 1);
    }
  }
}
