/** String operations of the Go standard library that the models need, on ASCII text,
    and the three name normalisers of the lockfile graph. */
module Text {

  function LowerChar(c: char): char {
    if 'A' <= c <= 'Z' then (c as int + 32) as char else c
  }

  function Lower(s: string): (r: string)
    ensures |r| == |s|
  {
    seq(|s|, i requires 0 <= i < |s| => LowerChar(s[i]))
  }

  function ReplaceChar(s: string, from: char, to: char): (r: string)
    ensures |r| == |s|
  {
    seq(|s|, i requires 0 <= i < |s| => if s[i] == from then to else s[i])
  }

  predicate IsSpace(c: char) {
    c == ' ' || c == '\t' || c == '\n' || c == '\r'
  }

  function TrimLeft(s: string): (r: string)
    ensures |r| <= |s|
    ensures r != "" ==> !IsSpace(r[0])
    ensures s != "" && !IsSpace(s[0]) ==> r == s
  {
    if s != "" && IsSpace(s[0]) then TrimLeft(s[1..]) else s
  }

  function TrimRight(s: string): (r: string)
    ensures |r| <= |s|
    ensures r <= s
    ensures r != "" ==> !IsSpace(r[|r| - 1])
    ensures s != "" && !IsSpace(s[|s| - 1]) ==> r == s
  {
    if s != "" && IsSpace(s[|s| - 1]) then TrimRight(s[..|s| - 1]) else s
  }

  function TrimSpace(s: string): (r: string)
    ensures r != "" ==> !IsSpace(r[0]) && !IsSpace(r[|r| - 1])
  {
    TrimRight(TrimLeft(s))
  }

  /** Text that neither starts nor ends with a space is left alone, so trimming twice is trimming once. */
  lemma TrimIdempotent(s: string)
    ensures TrimSpace(TrimSpace(s)) == TrimSpace(s)
  {
    var r := TrimSpace(s);
    if r != "" {
      assert TrimLeft(r) == r;
    }
  }

  lemma TrimmedAlready(s: string)
    requires s != "" && !IsSpace(s[0]) && !IsSpace(s[|s| - 1])
    ensures TrimSpace(s) == s
  {
    assert TrimLeft(s) == s;
  }

  ghost predicate AllSpace(s: string) {
    forall i :: 0 <= i < |s| ==> s[i] in {' ', '\t', '\n', '\r'}
  }

  /** Trimming takes the spaces around a text and nothing else. */
  lemma {:induction false} TrimSpaceIs(pre: string, s: string, post: string)
    requires AllSpace(pre) && AllSpace(post)
    requires s != "" ==> !IsSpace(s[0]) && !IsSpace(s[|s| - 1])
    ensures TrimSpace(pre + s + post) == s
  {
    if pre != "" {
      TrimSpaceIs(pre[1..], s, post);
      assert (pre + s + post)[1..] == pre[1..] + s + post;
    } else if s == "" {
      AllTrimmed(post);
      assert pre + s + post == post;
    } else {
      assert pre + s + post == s + post;
      TrimRightIs(s, post);
    }
  }

  lemma {:induction false} AllTrimmed(s: string)
    requires AllSpace(s)
    ensures TrimLeft(s) == ""
  {
    if s != "" { AllTrimmed(s[1..]); }
  }

  lemma {:induction false} TrimRightIs(s: string, post: string)
    requires s != "" && !IsSpace(s[|s| - 1]) && AllSpace(post)
    ensures TrimRight(s + post) == s
  {
    if post == "" {
      assert s + post == s;
    } else {
      TrimRightIs(s, post[..|post| - 1]);
      assert (s + post)[..|s + post| - 1] == s + post[..|post| - 1];
    }
  }

  predicate HasPrefix(s: string, p: string) { |p| <= |s| && s[..|p|] == p }

  lemma PrefixExactly(s: string, p: string)
    ensures HasPrefix(s, p) <==> p <= s
  {
  }

  // ---- joined texts ----

  /** Where c first occurs, or the length. */
  function FirstIndex(s: string, c: char): nat {
    if s == "" || s[0] == c then 0 else 1 + FirstIndex(s[1..], c)
  }

  lemma {:induction false} FirstIndexAfter(a: string, c: char, x: string)
    requires c !in a
    ensures FirstIndex(a + [c] + x, c) == |a|
  {
    var t := a + [c] + x;
    if a == "" {
      assert t[0] == c;
    } else {
      FirstIndexAfter(a[1..], c, x);
      assert t[0] == a[0] && t[1..] == a[1..] + [c] + x;
    }
  }

  /** Two texts joined by a separator that the first one does not hold can be told apart again. */
  lemma SplitFirst(a: string, x: string, b: string, y: string, c: char)
    requires c !in a && c !in b && a + [c] + x == b + [c] + y
    ensures a == b && x == y
  {
    var t := a + [c] + x;
    FirstIndexAfter(a, c, x);
    FirstIndexAfter(b, c, y);
    assert a == t[..|a|] && b == t[..|b|] && x == t[|a| + 1..] && y == t[|b| + 1..];
  }

  // ---- name normalisers ----

  predicate IsSeparator(c: char) {
    c == '-' || c == '_' || c == '.'
  }

  function DropSeparators(s: string): (r: string)
    ensures |r| <= |s|
    ensures r != "" ==> !IsSeparator(r[0])
  {
    if s != "" && IsSeparator(s[0]) then DropSeparators(s[1..]) else s
  }

  /** Every maximal run of separators becomes one dash. */
  function Collapse(s: string): string
    decreases |s|
  {
    if s == "" then ""
    else if IsSeparator(s[0]) then "-" + Collapse(DropSeparators(s[1..]))
    else [s[0]] + Collapse(s[1..])
  }

  function Pep503(s: string): string { Lower(Collapse(s)) }

  function CrateKey(s: string): string { Lower(ReplaceChar(s, '-', '_')) }

  /** No run of separators is left: every separator is a dash and none follows another. */
  ghost predicate Collapsed(s: string) {
    s == "" || (Collapsed(s[1..]) && (IsSeparator(s[0]) ==> s[0] == '-' && (|s| > 1 ==> !IsSeparator(s[1]))))
  }

  lemma {:induction false} CollapseCollapses(s: string)
    ensures Collapsed(Collapse(s))
    ensures s != "" && !IsSeparator(s[0]) ==> Collapse(s) != "" && Collapse(s)[0] == s[0]
    decreases |s|
  {
    if s != "" {
      var rest := if IsSeparator(s[0]) then DropSeparators(s[1..]) else s[1..];
      CollapseCollapses(rest);
      assert Collapse(s)[1..] == Collapse(rest);
    }
  }

  lemma {:induction false} CollapsedIsFixed(s: string)
    requires Collapsed(s)
    ensures Collapse(s) == s
    decreases |s|
  {
    if s != "" {
      CollapsedIsFixed(s[1..]);
      assert s == [s[0]] + s[1..];
      assert IsSeparator(s[0]) ==> DropSeparators(s[1..]) == s[1..];
    }
  }

  lemma {:induction false} LowerKeepsCollapsed(s: string)
    requires Collapsed(s)
    ensures Collapsed(Lower(s))
  {
    if s != "" {
      LowerKeepsCollapsed(s[1..]);
      assert Lower(s)[1..] == Lower(s[1..]);
    }
  }

  /** The Python, crate and lower-case normalisers give a normalised name back unchanged. */
  lemma NormalisersIdempotent(s: string)
    ensures Pep503(Pep503(s)) == Pep503(s)
    ensures CrateKey(CrateKey(s)) == CrateKey(s)
    ensures Lower(Lower(s)) == Lower(s)
  {
    CollapseCollapses(s);
    LowerKeepsCollapsed(Collapse(s));
    CollapsedIsFixed(Lower(Collapse(s)));
    assert Lower(Lower(Collapse(s))) == Lower(Collapse(s));
    assert Lower(Lower(s)) == Lower(s);
    assert CrateKey(CrateKey(s)) == CrateKey(s);
  }

  /** How an ecosystem spells package names. */
  datatype Norm = Exact | LowerCase | Crate | Python

  function Key(norm: Norm, name: string): string {
    match norm
    case Exact => name
    case LowerCase => Lower(name)
    case Crate => CrateKey(name)
    case Python => Pep503(name)
  }

  /** Looking a key up by its own key finds the same package. */
  lemma KeyIdempotent(norm: Norm, name: string)
    ensures Key(norm, Key(norm, name)) == Key(norm, name)
  {
    NormalisersIdempotent(name);
  }

  /** Letter by letter: lower case everywhere, and for crates an underscore for each dash. */
  lemma LettersOfKey(name: string)
    ensures Key(Exact, name) == name
    ensures |Key(LowerCase, name)| == |name| == |Key(Crate, name)|
    ensures forall i :: 0 <= i < |name| ==>
              Key(LowerCase, name)[i] == if 'A' <= name[i] <= 'Z' then (name[i] as int + 32) as char else name[i]
    ensures forall i :: 0 <= i < |name| ==>
              Key(Crate, name)[i] == if name[i] == '-' then '_' else Key(LowerCase, name)[i]
  {
  }

  ghost predicate AllSeparators(s: string) {
    forall i :: 0 <= i < |s| ==> s[i] in {'-', '_', '.'}
  }

  ghost predicate NoSeparators(s: string) {
    forall i :: 0 <= i < |s| ==> s[i] !in {'-', '_', '.'}
  }

  lemma {:induction false} RunIsDropped(run: string, rest: string)
    requires AllSeparators(run) && (rest != "" ==> !IsSeparator(rest[0]))
    ensures DropSeparators(run + rest) == rest
  {
    if run == "" {
      assert run + rest == rest;
    } else {
      RunIsDropped(run[1..], rest);
      assert (run + rest)[1..] == run[1..] + rest;
    }
  }

  lemma {:induction false} WordIsKept(word: string, rest: string)
    requires NoSeparators(word)
    ensures Collapse(word + rest) == word + Collapse(rest)
  {
    if word == "" {
      assert word + rest == rest;
    } else {
      WordIsKept(word[1..], rest);
      assert (word + rest)[1..] == word[1..] + rest;
    }
  }

  /** Run by run: a Python name keeps its words in lower case, and each run of separators between them is one dash. */
  lemma RunsOfPythonName(word: string, run: string, rest: string)
    requires NoSeparators(word) && AllSeparators(run) && (rest != "" ==> rest[0] !in {'-', '_', '.'})
    ensures Key(Python, word) == Lower(word)
    ensures run != "" ==> Key(Python, word + run + rest) == Lower(word) + "-" + Key(Python, rest)
  {
    WordIsKept(word, "");
    assert word + "" == word;
    if run != "" {
      WordIsKept(word, run + rest);
      assert word + run + rest == word + (run + rest);
      assert (run + rest)[1..] == run[1..] + rest;
      RunIsDropped(run[1..], rest);
      assert Collapse(word + run + rest) == word + ("-" + Collapse(rest));
      assert Lower(word + ("-" + Collapse(rest))) == Lower(word) + "-" + Lower(Collapse(rest));
    }
  }

  // ---- lexicographic order ----

  predicate LexLe(a: string, b: string) {
    a == "" || (b != "" && (a[0] < b[0] || (a[0] == b[0] && LexLe(a[1..], b[1..]))))
  }

  lemma {:induction false} LexTotal(a: string, b: string)
    ensures LexLe(a, b) || LexLe(b, a)
    ensures LexLe(a, a)
    decreases |a| + |b|
  {
    if a != "" {
      LexTotal(a[1..], if b != "" then b[1..] else "");
    }
  }

  lemma {:induction false} LexAntisymmetric(a: string, b: string)
    requires LexLe(a, b) && LexLe(b, a)
    ensures a == b
  {
    if a != "" {
      LexAntisymmetric(a[1..], b[1..]);
      assert a == [a[0]] + a[1..] && b == [b[0]] + b[1..];
    }
  }

  lemma {:induction false} LexTransitive(a: string, b: string, c: string)
    requires LexLe(a, b) && LexLe(b, c)
    ensures LexLe(a, c)
  {
    if a != "" && a[0] == b[0] && b[0] == c[0] {
      LexTransitive(a[1..], b[1..], c[1..]);
    }
  }

  /** The texts agree before i, and there the first one is smaller. */
  ghost predicate SmallerAt(a: string, b: string, i: nat) {
    i < |a| && i < |b| && a[..i] == b[..i] && a[i] < b[i]
  }

  lemma SmallerInRest(a: string, b: string, i: nat)
    requires a != "" && b != "" && a[0] == b[0]
    ensures SmallerAt(a[1..], b[1..], i) <==> SmallerAt(a, b, i + 1)
    ensures !SmallerAt(a, b, 0)
  {
    if i < |a| - 1 && i < |b| - 1 {
      var s, t := a[1..], b[1..];
      assert a[..i + 1] == [a[0]] + s[..i] && b[..i + 1] == [b[0]] + t[..i];
      assert s[..i] == a[..i + 1][1..] && t[..i] == b[..i + 1][1..];
    }
  }

  lemma SmallerAtOnce(a: string, b: string, i: nat)
    requires a != "" && b != "" && a[0] != b[0]
    ensures SmallerAt(a, b, i) <==> i == 0 && a[0] < b[0]
  {
    if 0 < i < |a| && i < |b| { assert a[..i][0] == a[0] && b[..i][0] == b[0]; }
  }

  /** A text comes before another one when it is a prefix of it or smaller where they first differ. */
  lemma {:induction false} LexExactly(a: string, b: string)
    ensures LexLe(a, b) <==> a <= b || exists i: nat :: SmallerAt(a, b, i)
  {
    if a != "" && b != "" {
      LexExactly(a[1..], b[1..]);
      assert a == [a[0]] + a[1..] && b == [b[0]] + b[1..];
      if a[0] == b[0] {
        assert a <= b <==> a[1..] <= b[1..];
        forall i: nat { SmallerInRest(a, b, i); }
        hide SmallerAt;
        if i: nat :| SmallerAt(a[1..], b[1..], i) { assert SmallerAt(a, b, i + 1); }
        if i: nat :| SmallerAt(a, b, i) { assert SmallerAt(a[1..], b[1..], i - 1); }
      } else {
        forall i: nat { SmallerAtOnce(a, b, i); }
        hide SmallerAt;
        assert SmallerAt(a, b, 0) <==> a[0] < b[0];
      }
    }
  }
}
