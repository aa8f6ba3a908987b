/** The handful of Ruby String operations the tagging code relies on:
    `strip`, `downcase`, `blank?`, `split(",")`, `join` and `Array#uniq`.
    Whitespace is Ruby's ASCII whitespace and case folding is ASCII only. */
module Text {

  /** Space, tab, line feed, vertical tab, form feed, carriage return. */
  predicate IsSpace(c: char) {
    c == ' ' || c == '\t' || c == '\n' || c == '\U{0B}' || c == '\U{0C}' || c == '\r'
  }

  predicate IsUpper(c: char) {
    'A' <= c <= 'Z'
  }

  /** Ruby's `blank?` on a String: empty or only whitespace. */
  predicate IsBlank(s: string) {
    forall i :: 0 <= i < |s| ==> IsSpace(s[i])
  }

  /** Leading whitespace removed (`lstrip`). */
  function StripLeft(s: string): (r: string)
    ensures |r| <= |s|
    ensures r == [] || !IsSpace(r[0])
  {
    if |s| > 0 && IsSpace(s[0]) then StripLeft(s[1..]) else s
  }

  /** Trailing whitespace removed (`rstrip`). */
  function StripRight(s: string): (r: string)
    ensures |r| <= |s|
    ensures r == [] || !IsSpace(r[|r| - 1])
  {
    if |s| > 0 && IsSpace(s[|s| - 1]) then StripRight(s[..|s| - 1]) else s
  }

  /** Ruby's `strip`. */
  function Strip(s: string): string {
    StripRight(StripLeft(s))
  }

  /** A string with no whitespace at either end: what `strip` returns. */
  predicate IsStripped(s: string) {
    s == [] || (!IsSpace(s[0]) && !IsSpace(s[|s| - 1]))
  }

  function Lower(c: char): char {
    if IsUpper(c) then (c as int + 32) as char else c
  }

  /** Ruby's `downcase`, restricted to ASCII letters. */
  function Downcase(s: string): (r: string)
    ensures |r| == |s|
    ensures forall i :: 0 <= i < |s| ==> r[i] == Lower(s[i])
  {
    seq(|s|, i requires 0 <= i < |s| => Lower(s[i]))
  }

  /** `lstrip` removes only whitespace: it leaves nothing exactly when the
      string was blank. */
  lemma {:induction false} StripLeftBlank(s: string)
    ensures StripLeft(s) == [] <==> IsBlank(s)
    decreases |s|
  {
    if |s| > 0 && IsSpace(s[0]) {
      StripLeftBlank(s[1..]);
      assert IsBlank(s) <==> IsBlank(s[1..]) by {
        if IsBlank(s[1..]) {
          forall i | 0 <= i < |s| ensures IsSpace(s[i]) {
            if i > 0 { assert s[i] == s[1..][i - 1]; }
          }
        }
      }
    } else if |s| > 0 {
      assert !IsBlank(s);
    }
  }

  /** `lstrip` removes only a prefix, and only whitespace: what it keeps is
      the end of the string, and what it drops is blank. */
  lemma {:induction false} StripLeftSuffix(s: string)
    ensures StripLeft(s) == s[|s| - |StripLeft(s)|..]
    ensures IsBlank(s[..|s| - |StripLeft(s)|])
    decreases |s|
  {
    if |s| > 0 && IsSpace(s[0]) {
      var tail := s[1..];
      StripLeftSuffix(tail);
      var d := |tail| - |StripLeft(tail)|;
      assert tail[d..] == s[d + 1..];
      assert s[..d + 1] == [s[0]] + tail[..d];
    } else {
      assert s[..0] == [];
    }
  }

  /** `rstrip` removes only a suffix, and only whitespace: it keeps the
      front of the string, what it drops is blank, and it leaves nothing
      exactly when the string was blank. */
  lemma {:induction false} StripRightPrefix(s: string)
    ensures StripRight(s) == s[..|StripRight(s)|]
    ensures IsBlank(s[|StripRight(s)|..])
    ensures StripRight(s) == [] <==> IsBlank(s)
    decreases |s|
  {
    if |s| > 0 && IsSpace(s[|s| - 1]) {
      var init := s[..|s| - 1];
      StripRightPrefix(init);
      assert init[..|StripRight(init)|] == s[..|StripRight(init)|];
      assert s[|StripRight(init)|..] == init[|StripRight(init)|..] + [s[|s| - 1]];
      assert IsBlank(s) <==> IsBlank(init) by {
        if IsBlank(init) {
          forall i | 0 <= i < |s| ensures IsSpace(s[i]) {
            if i < |s| - 1 { assert s[i] == init[i]; }
          }
        }
      }
    } else if |s| > 0 {
      assert !IsBlank(s);
      assert s[|s|..] == [];
    } else {
      assert s[..0] == s;
    }
  }

  /** Strip removes exactly the whitespace at both ends: the result is a
      slice of the input with only blanks cut off on either side; it is
      stripped, and it is empty precisely when the input was blank. */
  lemma StripSpec(s: string)
    ensures exists i, j :: 0 <= i <= j <= |s| && Strip(s) == s[i..j] && IsBlank(s[..i]) && IsBlank(s[j..])
    ensures IsStripped(Strip(s))
    ensures Strip(s) == [] <==> IsBlank(s)
    ensures IsStripped(s) ==> Strip(s) == s
  {
    var l := StripLeft(s);
    StripLeftBlank(s);
    StripLeftSuffix(s);
    StripRightPrefix(l);
    var i := |s| - |l|;
    var j := i + |Strip(s)|;
    assert Strip(s) == s[i..j];
    assert s[j..] == l[|Strip(s)|..];
    if IsStripped(s) && s != [] {
      assert l == s;
    }
  }

  /** Blanks in front of a string make no difference to `lstrip`. */
  lemma {:induction false} StripLeftSkipsBlank(w: string, t: string)
    requires IsBlank(w)
    ensures StripLeft(w + t) == StripLeft(t)
    decreases |w|
  {
    if |w| > 0 {
      assert (w + t)[1..] == w[1..] + t;
      StripLeftSkipsBlank(w[1..], t);
    } else {
      assert w + t == t;
    }
  }

  /** Blanks after a string make no difference to `rstrip`. */
  lemma {:induction false} StripRightSkipsBlank(t: string, w: string)
    requires IsBlank(w)
    ensures StripRight(t + w) == StripRight(t)
    decreases |w|
  {
    if |w| > 0 {
      var init := w[..|w| - 1];
      assert (t + w)[..|t + w| - 1] == t + init;
      StripRightSkipsBlank(t, init);
    } else {
      assert t + w == t;
    }
  }

  /** `lstrip` of a non-blank string stops inside it, so what follows is kept. */
  lemma {:induction false} StripLeftKeepsTail(s: string, w: string)
    requires !IsBlank(s)
    ensures StripLeft(s + w) == StripLeft(s) + w
    decreases |s|
  {
    assert (s + w)[0] == s[0];
    if IsSpace(s[0]) {
      assert (s + w)[1..] == s[1..] + w;
      var i :| 0 <= i < |s| && !IsSpace(s[i]);
      assert s[1..][i - 1] == s[i];
      StripLeftKeepsTail(s[1..], w);
    }
  }

  /** `strip` ignores blanks added on either side. */
  lemma StripIgnoresPadding(w1: string, s: string, w2: string)
    requires IsBlank(w1) && IsBlank(w2)
    ensures Strip(w1 + s + w2) == Strip(s)
  {
    assert w1 + s + w2 == w1 + (s + w2);
    StripLeftSkipsBlank(w1, s + w2);
    if IsBlank(s) {
      assert IsBlank(s + w2) by {
        forall i | 0 <= i < |s + w2| ensures IsSpace((s + w2)[i]) {
          if i < |s| { assert (s + w2)[i] == s[i]; } else { assert (s + w2)[i] == w2[i - |s|]; }
        }
      }
      StripLeftBlank(s + w2);
      StripLeftBlank(s);
    } else {
      StripLeftKeepsTail(s, w2);
      StripRightSkipsBlank(StripLeft(s), w2);
    }
  }

  lemma LowerKeepsSpace(c: char)
    ensures IsSpace(Lower(c)) <==> IsSpace(c)
  {
  }

  /** `downcase` and `lstrip` commute. */
  lemma {:induction false} StripLeftDowncase(s: string)
    ensures StripLeft(Downcase(s)) == Downcase(StripLeft(s))
    decreases |s|
  {
    if |s| > 0 {
      LowerKeepsSpace(s[0]);
      assert Downcase(s)[1..] == Downcase(s[1..]);
      StripLeftDowncase(s[1..]);
    }
  }

  /** `downcase` and `rstrip` commute. */
  lemma {:induction false} StripRightDowncase(s: string)
    ensures StripRight(Downcase(s)) == Downcase(StripRight(s))
    decreases |s|
  {
    if |s| > 0 {
      LowerKeepsSpace(s[|s| - 1]);
      assert Downcase(s)[..|s| - 1] == Downcase(s[..|s| - 1]);
      StripRightDowncase(s[..|s| - 1]);
    }
  }

  /** `downcase` and `strip` commute, and downcasing twice is downcasing once. */
  lemma StripDowncase(s: string)
    ensures Strip(Downcase(s)) == Downcase(Strip(s))
    ensures Downcase(Downcase(s)) == Downcase(s)
  {
    StripLeftDowncase(s);
    StripRightDowncase(StripLeft(s));
  }

  /** Leading whitespace never survives `strip`. */
  lemma StripSkipsLeadingSpace(c: char, s: string)
    requires IsSpace(c)
    ensures Strip([c] + s) == Strip(s)
  {
    assert ([c] + s)[1..] == s;
  }

  /** `downcase` never creates or removes whitespace, so it keeps a stripped
      string stripped and a non-blank string non-blank. */
  lemma DowncaseKeepsSpaces(s: string)
    ensures IsStripped(s) ==> IsStripped(Downcase(s))
    ensures IsBlank(Downcase(s)) <==> IsBlank(s)
    ensures forall i :: 0 <= i < |s| ==> !IsUpper(Downcase(s)[i])
  {
  }

  /** Every piece of `s` between the separators, empty pieces included;
      there is always at least one piece. */
  function SplitAll(s: string, sep: char): (r: seq<string>)
    ensures |r| >= 1
    ensures forall k :: 0 <= k < |r| ==> sep !in r[k]
    decreases |s|
  {
    if |s| == 0 then [""]
    else
      var rest := SplitAll(s[1..], sep);
      if s[0] == sep then [""] + rest
      else [[s[0]] + rest[0]] + rest[1..]
  }

  /** Trailing empty strings removed, as Ruby's `split` does with no limit. */
  function DropTrailingEmpty(xs: seq<string>): (r: seq<string>)
    ensures |r| <= |xs| && r == xs[..|r|]
    ensures r == [] || r[|r| - 1] != ""
    ensures forall k :: |r| <= k < |xs| ==> xs[k] == ""
  {
    if |xs| > 0 && xs[|xs| - 1] == "" then DropTrailingEmpty(xs[..|xs| - 1]) else xs
  }

  /** Ruby's `String#split(sep)`: `"".split(",")` is `[]` and `"a,,".split(",")` is `["a"]`. */
  function Split(s: string, sep: char): seq<string> {
    DropTrailingEmpty(SplitAll(s, sep))
  }

  /** Ruby's `Array#join(sep)`. */
  function Join(xs: seq<string>, sep: string): string {
    if |xs| == 0 then ""
    else if |xs| == 1 then xs[0]
    else xs[0] + sep + Join(xs[1..], sep)
  }

  /** Splitting a string whose first part holds no separator keeps that part
      glued to the front of the first piece of the rest. */
  lemma {:induction false} SplitAllNoSepPrefix(a: string, t: string, sep: char)
    requires sep !in a
    ensures SplitAll(a + t, sep) == [a + SplitAll(t, sep)[0]] + SplitAll(t, sep)[1..]
    decreases |a|
  {
    if |a| > 0 {
      assert (a + t)[1..] == a[1..] + t;
      assert (a + t)[0] == a[0];
      SplitAllNoSepPrefix(a[1..], t, sep);
      assert [a[0]] + (a[1..] + SplitAll(t, sep)[0]) == a + SplitAll(t, sep)[0];
    } else {
      var p := SplitAll(t, sep);
      assert a + t == t;
      assert a + p[0] == p[0];
      assert [p[0]] + p[1..] == p;
    }
  }

  /** The pieces of a join on a separator-free list are the list itself. */
  lemma {:induction false} SplitAllJoin(xs: seq<string>, sep: char)
    requires |xs| >= 1
    requires forall k :: 0 <= k < |xs| ==> sep !in xs[k]
    ensures SplitAll(Join(xs, [sep]), sep) == xs
    decreases |xs|
  {
    if |xs| == 1 {
      SplitAllNoSepPrefix(xs[0], "", sep);
      assert xs[0] + "" == xs[0];
    } else {
      var t := Join(xs[1..], [sep]);
      SplitAllJoin(xs[1..], sep);
      assert Join(xs, [sep]) == xs[0] + ([sep] + t);
      SplitAllNoSepPrefix(xs[0], [sep] + t, sep);
      assert ([sep] + t)[1..] == t;
      assert SplitAll([sep] + t, sep) == [""] + xs[1..];
      assert xs[0] + "" == xs[0];
      assert [xs[0]] + xs[1..] == xs;
    }
  }

  /** A non-empty sequence is its front followed by its last element. */
  lemma FrontLast<T>(xs: seq<T>)
    requires |xs| > 0
    ensures xs == xs[..|xs| - 1] + [xs[|xs| - 1]]
  {
  }

  /** No two equal elements. */
  predicate Distinct<T(==)>(xs: seq<T>) {
    forall i, j :: 0 <= i < j < |xs| ==> xs[i] != xs[j]
  }

  /** Ruby's `Array#uniq`: duplicates dropped, first occurrences kept in order. */
  function Dedup(xs: seq<string>): (r: seq<string>)
    ensures Distinct(r)
    ensures forall x :: x in r <==> x in xs
    ensures |r| <= |xs|
    decreases |xs|
  {
    if |xs| == 0 then []
    else
      var d := Dedup(xs[..|xs| - 1]);
      var x := xs[|xs| - 1];
      assert forall y :: y in xs <==> y in xs[..|xs| - 1] || y == x by {
        assert xs == xs[..|xs| - 1] + [x];
      }
      if x in d then d else d + [x]
  }

  /** `uniq` keeps the order of first occurrence: whatever is appended later
      can only add elements after the ones already kept. */
  lemma {:induction false} DedupPrefix(xs: seq<string>, ys: seq<string>)
    ensures Dedup(xs) <= Dedup(xs + ys)
    decreases |ys|
  {
    if |ys| > 0 {
      var zs := xs + ys[..|ys| - 1];
      DedupPrefix(xs, ys[..|ys| - 1]);
      assert (xs + ys)[..|xs + ys| - 1] == zs;
    } else {
      assert xs + ys == xs;
    }
  }

  /** `uniq` leaves a list without duplicates as it is. */
  lemma {:induction false} DedupOfDistinct(xs: seq<string>)
    requires Distinct(xs)
    ensures Dedup(xs) == xs
    decreases |xs|
  {
    if |xs| > 0 {
      var init := xs[..|xs| - 1];
      DedupOfDistinct(init);
      assert xs[|xs| - 1] !in init;
      assert init + [xs[|xs| - 1]] == xs;
    }
  }
}
