/** The string operations the program relies on: Python's `str.strip()`,
    `str.split(',')`, `','.join(...)` and the substring test `k in text`. */
module Text {

  /** The characters for which Python's `str.isspace()` holds, i.e. what
      `str.strip()` without arguments removes. */
  predicate IsSpace(c: char)
  {
    ('\t' <= c <= '\r') || ('\U{1C}' <= c <= '\U{1F}') || c == ' ' || c == '\U{85}' || c == '\U{A0}'
    || c == '\U{1680}' || ('\U{2000}' <= c <= '\U{200A}') || c == '\U{2028}' || c == '\U{2029}'
    || c == '\U{202F}' || c == '\U{205F}' || c == '\U{3000}'
  }

  ghost predicate AllSpace(s: string)
  {
    forall i :: 0 <= i < |s| ==> IsSpace(s[i])
  }

  /** Neither starts nor ends with white space. */
  predicate Trimmed(s: string)
  {
    |s| == 0 || (!IsSpace(s[0]) && !IsSpace(s[|s| - 1]))
  }

  /** `r` sits at position `a` of `s` and everything around it is white space. */
  ghost predicate Framed(s: string, a: int, r: string)
  {
    0 <= a && a + |r| <= |s| && s[a..a + |r|] == r && AllSpace(s[..a]) && AllSpace(s[a + |r|..])
  }

  function StripStart(s: string): string
    decreases |s|
  {
    if |s| > 0 && IsSpace(s[0]) then StripStart(s[1..]) else s
  }

  function StripEnd(s: string): string
    decreases |s|
  {
    if |s| > 0 && IsSpace(s[|s| - 1]) then StripEnd(s[..|s| - 1]) else s
  }

  /** `StripStart` removes exactly the leading white space. */
  lemma {:induction false} StripStartSpec(s: string)
    ensures var r := StripStart(s);
            |r| <= |s| && r == s[|s| - |r|..] && AllSpace(s[..|s| - |r|]) && (|r| == 0 || !IsSpace(r[0]))
    decreases |s|
  {
    if |s| > 0 && IsSpace(s[0]) {
      StripStartSpec(s[1..]);
      var r := StripStart(s);
      assert s[1..][..|s| - 1 - |r|] == s[1..|s| - |r|];
      assert forall i :: 1 <= i < |s| - |r| ==> s[i] == s[1..|s| - |r|][i - 1];
    }
  }

  /** `StripEnd` removes exactly the trailing white space. */
  lemma {:induction false} StripEndSpec(s: string)
    ensures var r := StripEnd(s);
            |r| <= |s| && r == s[..|r|] && AllSpace(s[|r|..]) && (|r| == 0 || !IsSpace(r[|r| - 1]))
    decreases |s|
  {
    if |s| > 0 && IsSpace(s[|s| - 1]) {
      StripEndSpec(s[..|s| - 1]);
      var r := StripEnd(s);
      assert s[..|s| - 1][|r|..] == s[|r|..|s| - 1];
      assert forall i :: |r| <= i < |s| - 1 ==> s[i] == s[|r|..|s| - 1][i - |r|];
    }
  }

  /** Python's `s.strip()`: a trimmed piece of `s`; `StripIsFramed` and
      `StripBlank` say which piece. */
  function Strip(s: string): (r: string)
    ensures |r| <= |s|
    ensures Trimmed(r)
  {
    StripTrimmedResult(s);
    StripEnd(StripStart(s))
  }

  lemma StripTrimmedResult(s: string)
    ensures |StripEnd(StripStart(s))| <= |s|
    ensures Trimmed(StripEnd(StripStart(s)))
  {
    var t := StripStart(s);
    var r := StripEnd(t);
    StripStartSpec(s);
    StripEndSpec(t);
    if |r| > 0 {
      assert r[0] == t[0];
    }
  }

  /** What `Strip` removes is white space on either side of its result. */
  lemma StripIsFramed(s: string)
    ensures Framed(s, |s| - |StripStart(s)|, Strip(s))
  {
    var t := StripStart(s);
    var r := StripEnd(t);
    assert Strip(s) == r;
    StripStartSpec(s);
    StripEndSpec(t);
    FramedOf(s, t, r, |s| - |t|);
  }

  lemma FramedOf(s: string, t: string, r: string, a: int)
    requires 0 <= a <= |s| && s[a..] == t && AllSpace(s[..a])
    requires |r| <= |t| && r == t[..|r|] && AllSpace(t[|r|..])
    ensures Framed(s, a, r)
  {
    FramedInfix(s, t, r, a);
    FramedSuffix(s, t, r, a);
  }

  /** The stripped text is empty exactly when the text is white space only. */
  lemma StripBlank(s: string)
    ensures |Strip(s)| == 0 <==> AllSpace(s)
  {
    var t := StripStart(s);
    var r := StripEnd(t);
    StripStartSpec(s);
    StripEndSpec(t);
    FramedBlank(s, t, r, |s| - |t|);
  }

  /** Stripping only removes characters. */
  lemma StripChars(s: string)
    ensures forall c :: c in Strip(s) ==> c in s
  {
    StripIsFramed(s);
    var a := |s| - |StripStart(s)|;
    assert Strip(s) == s[a..a + |Strip(s)|];
  }

  lemma FramedInfix(s: string, t: string, r: string, a: int)
    requires 0 <= a <= |s| && s[a..] == t && |r| <= |t| && r == t[..|r|]
    ensures s[a..a + |r|] == r
  {
  }

  lemma FramedSuffix(s: string, t: string, r: string, a: int)
    requires 0 <= a <= |s| && s[a..] == t && |r| <= |t| && r == t[..|r|] && AllSpace(t[|r|..])
    ensures AllSpace(s[a + |r|..])
  {
    assert s[a + |r|..] == t[|r|..];
  }

  lemma FramedBlank(s: string, t: string, r: string, a: int)
    requires 0 <= a <= |s| && s[a..] == t && |r| <= |t| && r == t[..|r|] && AllSpace(s[..a])
    requires |r| > 0 ==> !IsSpace(r[0])
    requires AllSpace(t[|r|..])
    ensures |r| == 0 <==> AllSpace(s)
  {
    if |r| == 0 {
      AllSpaceConcat(s[..a], t);
      assert s == s[..a] + t;
    } else {
      assert r[0] == s[a];
    }
  }

  lemma AllSpaceConcat(a: string, b: string)
    requires AllSpace(a) && AllSpace(b)
    ensures AllSpace(a + b)
  {
  }

  /** `s.strip() == ""`: the text is empty or white space only. */
  predicate IsBlank(s: string)
  {
    Strip(s) == ""
  }

  lemma {:induction false} StripTrimmed(s: string)
    requires Trimmed(s)
    ensures Strip(s) == s
  {
    assert StripStart(s) == s;
    assert StripEnd(s) == s;
  }

  /** Python's `k in text` (substring containment, case-sensitive). */
  predicate Contains(text: string, k: string)
    decreases |text|
  {
    k <= text || (|text| > 0 && Contains(text[1..], k))
  }

  lemma {:induction false} ContainsAt(text: string, k: string)
    ensures Contains(text, k) <==> exists i :: 0 <= i <= |text| && k <= text[i..]
    decreases |text|
  {
    if |text| > 0 {
      ContainsAt(text[1..], k);
      if Contains(text, k) && !(k <= text) {
        var i :| 0 <= i <= |text[1..]| && k <= text[1..][i..];
        assert text[1..][i..] == text[i + 1..];
      }
      if exists i :: 0 <= i <= |text| && k <= text[i..] {
        var i :| 0 <= i <= |text| && k <= text[i..];
        if i > 0 {
          assert text[1..][i - 1..] == text[i..];
        }
      }
    } else {
      if exists i :: 0 <= i <= |text| && k <= text[i..] {
        var i :| 0 <= i <= |text| && k <= text[i..];
        assert text[i..] == text;
      }
      if Contains(text, k) {
        assert k <= text[0..];
      }
    }
  }

  /** A text containing a non-empty trimmed keyword is not blank. */
  lemma HitIsNotBlank(text: string, k: string)
    requires |k| > 0 && Trimmed(k) && Contains(text, k)
    ensures !IsBlank(text)
  {
    ContainsAt(text, k);
    var i :| 0 <= i <= |text| && k <= text[i..];
    assert text[i] == k[0];
    StripBlank(text);
  }

  /** Python's `s.split(sep)`: never empty; the pieces are the maximal
      separator-free runs. */
  function Split(s: string, sep: char): (parts: seq<string>)
    ensures |parts| >= 1
    decreases |s|
  {
    if |s| == 0 then [""]
    else
      var rest := Split(s[1..], sep);
      if s[0] == sep then [""] + rest
      else [[s[0]] + rest[0]] + rest[1..]
  }

  /** No piece of a split holds the separator. */
  lemma {:induction false} SplitPiecesLackSep(s: string, sep: char)
    ensures forall p :: p in Split(s, sep) ==> sep !in p
    decreases |s|
  {
    if |s| > 0 {
      SplitPiecesLackSep(s[1..], sep);
      var rest := Split(s[1..], sep);
      if s[0] != sep {
        assert rest[0] in rest;
        assert sep !in [s[0]] + rest[0];
        forall p | p in rest[1..] ensures sep !in p {
          assert p in rest;
        }
      }
    }
  }

  /** Python's `sep.join(parts)`. */
  function Join(parts: seq<string>, sep: char): string
    decreases |parts|
  {
    if |parts| == 0 then ""
    else if |parts| == 1 then parts[0]
    else parts[0] + [sep] + Join(parts[1..], sep)
  }

  lemma {:induction false} JoinSplit(s: string, sep: char)
    ensures Join(Split(s, sep), sep) == s
    decreases |s|
  {
    if |s| > 0 {
      var rest := Split(s[1..], sep);
      JoinSplit(s[1..], sep);
      if s[0] == sep {
        assert ([""] + rest)[1..] == rest;
      } else {
        var parts := [[s[0]] + rest[0]] + rest[1..];
        if |rest| > 1 {
          assert parts[1..] == rest[1..];
        }
      }
    }
  }

  /** One step of `Split`, written for a string given as head and tail. */
  lemma SplitCons(c: char, t: string, sep: char)
    ensures var rest := Split(t, sep);
            Split([c] + t, sep) == if c == sep then [""] + rest else [[c] + rest[0]] + rest[1..]
  {
    assert ([c] + t)[1..] == t;
  }

  /** The inductive step of `SplitAround`: putting one more character in
      front of the left side. */
  lemma SplitAroundStep(c: char, a: string, b: string, sep: char)
    requires Split(a + [sep] + b, sep) == Split(a, sep) + Split(b, sep)
    ensures Split([c] + a + [sep] + b, sep) == Split([c] + a, sep) + Split(b, sep)
  {
    var t := a + [sep] + b;
    assert [c] + a + [sep] + b == [c] + t;
    StepAround(c, t, a, sep, Split(b, sep));
  }

  /** If `t` splits into the pieces of `a` followed by `right`, the same holds
      after one character is put in front of both. */
  lemma StepAround(c: char, t: string, a: string, sep: char, right: seq<string>)
    requires Split(t, sep) == Split(a, sep) + right
    ensures Split([c] + t, sep) == Split([c] + a, sep) + right
  {
    SplitCons(c, a, sep);
    SplitCons(c, t, sep);
    if c != sep {
      GlueHead(c, Split(t, sep), Split(a, sep), right);
    }
  }

  /** Gluing a character onto the first piece commutes with appending
      further pieces. */
  lemma GlueHead(c: char, whole: seq<string>, left: seq<string>, right: seq<string>)
    requires |left| >= 1 && whole == left + right
    ensures [[c] + whole[0]] + whole[1..] == ([[c] + left[0]] + left[1..]) + right
  {
    assert whole[0] == left[0];
    assert whole[1..] == left[1..] + right;
  }

  /** Splitting around one separator splits each side independently. */
  lemma {:induction false} SplitAround(a: string, b: string, sep: char)
    ensures Split(a + [sep] + b, sep) == Split(a, sep) + Split(b, sep)
    decreases |a|
  {
    if |a| == 0 {
      assert a + [sep] + b == [sep] + b;
      SplitCons(sep, b, sep);
    } else {
      SplitAround(a[1..], b, sep);
      SplitAroundStep(a[0], a[1..], b, sep);
      assert [a[0]] + a[1..] == a;
    }
  }

  lemma {:induction false} SplitNoSep(p: string, sep: char)
    requires sep !in p
    ensures Split(p, sep) == [p]
    decreases |p|
  {
    if |p| > 0 {
      SplitNoSep(p[1..], sep);
      assert [p[0]] + p[1..] == p;
    }
  }

  /** Splitting undoes joining when no piece holds the separator. */
  lemma {:induction false} SplitJoin(parts: seq<string>, sep: char)
    requires |parts| >= 1
    requires forall p :: p in parts ==> sep !in p
    ensures Split(Join(parts, sep), sep) == parts
    decreases |parts|
  {
    if |parts| == 1 {
      SplitNoSep(parts[0], sep);
    } else {
      SplitJoin(parts[1..], sep);
      SplitAround(parts[0], Join(parts[1..], sep), sep);
      SplitNoSep(parts[0], sep);
    }
  }
}
