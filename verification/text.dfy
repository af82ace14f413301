/** Splitting a string on a one-character separator and joining tokens back,
    with the semantics of JavaScript's `String.prototype.split(sep)` and
    `Array.prototype.join(sep)` for a one-character `sep`. */
module Text {
  import opened Wrappers

  /** The number of occurrences of `c` in `s`. */
  function Count(s: string, c: char): nat
  {
    multiset(s)[c]
  }

  /** Position of the first occurrence of `c` in `s`, if `c` occurs. */
  function FirstIndex(s: string, c: char): (r: Option<nat>)
    ensures r.None? <==> c !in s
    ensures r.Some? ==> r.value < |s| && s[r.value] == c && c !in s[..r.value]
  {
    if |s| == 0 then None
    else if s[0] == c then Some(0)
    else
      match FirstIndex(s[1..], c)
      case None => None
      case Some(i) =>
        assert s[..i + 1] == [s[0]] + s[1..][..i];
        Some(i + 1)
  }

  /** `s.split(sep)`: the maximal runs between separators, in order. Empty runs
      are kept, so the empty string gives one empty token and every separator
      adds exactly one token. */
  function Split(s: string, sep: char): (parts: seq<string>)
    ensures |parts| == Count(s, sep) + 1
    ensures forall k :: 0 <= k < |parts| ==> sep !in parts[k]
    decreases |s|
  {
    match FirstIndex(s, sep)
    case None => [s]
    case Some(i) =>
      assert s == s[..i] + [sep] + s[i + 1..];
      [s[..i]] + Split(s[i + 1..], sep)
  }

  /** `parts.join(sep)`: the tokens with one separator between neighbours; the
      empty list gives the empty string. */
  function Join(parts: seq<string>, sep: char): string
  {
    if |parts| == 0 then ""
    else if |parts| == 1 then parts[0]
    else parts[0] + [sep] + Join(parts[1..], sep)
  }

  /** Joining tokens free of the separator puts exactly one separator between
      neighbours: one fewer than there are tokens. */
  lemma {:induction false} JoinCountsSeparators(parts: seq<string>, sep: char)
    requires |parts| > 0
    requires forall k :: 0 <= k < |parts| ==> sep !in parts[k]
    ensures Count(Join(parts, sep), sep) == |parts| - 1
    decreases |parts|
  {
    if |parts| > 1 {
      var rest := Join(parts[1..], sep);
      JoinCountsSeparators(parts[1..], sep);
      assert multiset(parts[0] + [sep] + rest) == multiset(parts[0]) + multiset{sep} + multiset(rest);
    }
  }

  /** Dropping `k >= 1` leading tokens, one of them non-empty, shortens the
      joined string. */
  lemma {:induction false} JoinDropShorter(parts: seq<string>, sep: char, k: nat)
    requires 1 <= k <= |parts|
    requires exists j :: 0 <= j < k && |parts[j]| > 0
    ensures |Join(parts[k..], sep)| < |Join(parts, sep)|
    decreases k
  {
    assert parts[1..][k - 1..] == parts[k..];
    if |parts| == 1 {
      assert parts[k..] == [];
    } else if k == 1 {
      JoinUnfold(parts, sep);
    } else if |parts[0]| > 0 {
      JoinUnfold(parts, sep);
      JoinDropNotLonger(parts[1..], sep, k - 1);
    } else {
      JoinUnfold(parts, sep);
      var j :| 0 <= j < k && |parts[j]| > 0;
      assert parts[1..][j - 1] == parts[j];
      JoinDropShorter(parts[1..], sep, k - 1);
    }
  }

  /** Dropping leading tokens never lengthens the joined string. */
  lemma {:induction false} JoinDropNotLonger(parts: seq<string>, sep: char, k: nat)
    requires k <= |parts|
    ensures |Join(parts[k..], sep)| <= |Join(parts, sep)|
    decreases k
  {
    if k == 0 {
      assert parts[0..] == parts;
    } else if |parts| == 1 {
    } else {
      assert parts[1..][k - 1..] == parts[k..];
      JoinDropNotLonger(parts[1..], sep, k - 1);
    }
  }

  /** A list of two or more tokens joins as its first token, a separator and the
      join of the rest. */
  lemma JoinUnfold(parts: seq<string>, sep: char)
    requires |parts| >= 2
    ensures Join(parts, sep) == parts[0] + [sep] + Join(parts[1..], sep)
  {
  }

  /** `t` is the part of `s` after its `n`-th occurrence of `sep`: a suffix of
      `s` whose prefix holds exactly `n` separators and ends with one (for
      `n == 0`, all of `s`). */
  ghost predicate IsSuffixAfterNth(s: string, sep: char, n: nat, t: string)
  {
    && |t| <= |s|
    && s[|s| - |t|..] == t
    && Count(s[..|s| - |t|], sep) == n
    && (if n == 0 then |t| == |s| else s[|s| - |t| - 1] == sep)
  }

  /** Joining the tokens of a split gives back the original string. */
  lemma {:induction false} JoinSplit(s: string, sep: char)
    ensures Join(Split(s, sep), sep) == s
    decreases |s|
  {
    match FirstIndex(s, sep)
    case None =>
    case Some(i) =>
      var rest := s[i + 1..];
      JoinSplit(rest, sep);
      assert Split(s, sep) == [s[..i]] + Split(rest, sep);
      assert Split(s, sep)[1..] == Split(rest, sep);
      assert s == s[..i] + [sep] + rest;
  }

  /** The first separator of `a + [sep] + b` is the one after `a` when `a` holds
      none. */
  lemma FirstIndexAfterToken(a: string, sep: char, b: string)
    requires sep !in a
    ensures FirstIndex(a + [sep] + b, sep) == Some(|a|)
  {
    var s := a + [sep] + b;
    assert s[|a|] == sep;
    assert s[..|a|] == a;
  }

  /** Splitting joined tokens gives them back, provided no token holds the
      separator (the list cannot be empty: `[]` and `[""]` both join to ""). */
  lemma {:induction false} SplitJoin(parts: seq<string>, sep: char)
    requires |parts| > 0
    requires forall k :: 0 <= k < |parts| ==> sep !in parts[k]
    ensures Split(Join(parts, sep), sep) == parts
    decreases |parts|
  {
    if |parts| == 1 {
      assert FirstIndex(parts[0], sep).None?;
    } else {
      var tail := Join(parts[1..], sep);
      FirstIndexAfterToken(parts[0], sep, tail);
      var s := parts[0] + [sep] + tail;
      assert s[..|parts[0]|] == parts[0];
      assert s[|parts[0]| + 1..] == tail;
      SplitJoin(parts[1..], sep);
      assert parts == [parts[0]] + parts[1..];
    }
  }

  /** Putting one token and a separator in front of `rest` moves every
      "after the `m`-th separator" suffix of `rest` to "after the `m + 1`-th". */
  lemma SuffixAfterNthPrepend(pre: string, sep: char, rest: string, m: nat, t: string)
    requires sep !in pre
    requires IsSuffixAfterNth(rest, sep, m, t)
    ensures IsSuffixAfterNth(pre + [sep] + rest, sep, m + 1, t)
  {
    var s := pre + [sep] + rest;
    var head := pre + [sep];
    assert s == head + rest;
    var p := rest[..|rest| - |t|];
    assert s[..|s| - |t|] == head + p;
    assert multiset(head + p) == multiset(pre) + multiset{sep} + multiset(p);
    if m == 0 {
      assert s[|s| - |t| - 1] == sep;
    } else {
      assert s[|s| - |t| - 1] == rest[|rest| - |t| - 1];
    }
  }

  /** The tokens from index `k` on, joined, are exactly the text after the
      `k`-th separator of the original string. */
  lemma {:induction false} JoinDropIsSuffixAfterNth(s: string, sep: char, k: nat)
    requires 1 <= k < |Split(s, sep)|
    ensures IsSuffixAfterNth(s, sep, k, Join(Split(s, sep)[k..], sep))
    decreases k
  {
    var i := FirstIndex(s, sep).value;
    var rest := s[i + 1..];
    assert s == s[..i] + [sep] + rest;
    assert Split(s, sep)[k..] == Split(rest, sep)[k - 1..];
    var t := Join(Split(rest, sep)[k - 1..], sep);
    if k == 1 {
      JoinSplit(rest, sep);
      assert Split(rest, sep)[0..] == Split(rest, sep);
      assert IsSuffixAfterNth(rest, sep, 0, t);
    } else {
      JoinDropIsSuffixAfterNth(rest, sep, k - 1);
    }
    SuffixAfterNthPrepend(s[..i], sep, rest, k - 1, t);
  }

  /** Only one suffix follows the `n`-th separator, for `n >= 1`. */
  lemma SuffixAfterNthUnique(s: string, sep: char, n: nat, t1: string, t2: string)
    requires n >= 1
    requires IsSuffixAfterNth(s, sep, n, t1) && IsSuffixAfterNth(s, sep, n, t2)
    ensures t1 == t2
  {
    if |t1| < |t2| {
      SuffixLongerHasFewerSeparators(s, sep, n, t1, t2);
    } else if |t2| < |t1| {
      SuffixLongerHasFewerSeparators(s, sep, n, t2, t1);
    }
  }

  /** The prefix before a longer suffix misses the separator just before the
      shorter one, so it cannot hold as many separators. */
  lemma SuffixLongerHasFewerSeparators(s: string, sep: char, n: nat, short: string, long: string)
    requires n >= 1
    requires IsSuffixAfterNth(s, sep, n, short)
    requires |short| < |long| <= |s|
    ensures Count(s[..|s| - |long|], sep) < n
  {
    var a := |s| - |long|;
    var b := |s| - |short|;
    assert s[..b] == s[..a] + s[a..b - 1] + [sep];
    assert multiset(s[..b]) == multiset(s[..a]) + multiset(s[a..b - 1]) + multiset{sep};
  }
}
