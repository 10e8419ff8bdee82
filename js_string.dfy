/**
 * The JavaScript string operations the app relies on:
 * `startsWith`, `includes`, `trim` and `toLowerCase`.
 */
module JsString {

  /** `s.startsWith(prefix)` */
  predicate StartsWith(s: string, prefix: string)
  {
    |prefix| <= |s| && s[..|prefix|] == prefix
  }

  /** `t` occurs in `s` starting at position `i`. */
  predicate OccursAt(s: string, t: string, i: nat)
  {
    i + |t| <= |s| && s[i..i + |t|] == t
  }

  /** `s.includes(t)` */
  predicate Includes(s: string, t: string)
  {
    exists i: nat | i <= |s| :: OccursAt(s, t, i)
  }

  /** An occurrence of `t` survives putting `p` in front. */
  lemma IncludesPrepend(p: string, s: string, t: string)
    requires Includes(s, t)
    ensures Includes(p + s, t)
  {
    var i: nat :| i <= |s| && OccursAt(s, t, i);
    assert (p + s)[|p| + i..|p| + i + |t|] == s[i..i + |t|];
    assert OccursAt(p + s, t, |p| + i);
  }

  /** An occurrence of `t` survives dropping a first character that cannot begin it. */
  lemma IncludesDropFirst(s: string, t: string)
    requires |s| > 0 && |t| > 0 && s[0] != t[0]
    requires Includes(s, t)
    ensures Includes(s[1..], t)
  {
    var i: nat :| i <= |s| && OccursAt(s, t, i);
    assert s[i] == t[0] by { assert s[i..i + |t|][0] == s[i]; }
    assert s[1..][i - 1..i - 1 + |t|] == s[i..i + |t|];
    assert OccursAt(s[1..], t, i - 1);
  }

  // ---------------------------------------------------------------------
  // trim
  // ---------------------------------------------------------------------

  /**
   * The characters `String.prototype.trim` removes: the WhiteSpace
   * (tab, vertical tab, form feed, no-break space, byte order mark and
   * every space separator) and LineTerminator code points of ECMAScript.
   */
  predicate IsJsWhitespace(c: char)
  {
    || c == '\t' || c == '\n' || c == '\U{B}' || c == '\U{C}' || c == '\r'
    || c == ' ' || c == '\U{A0}' || c == '\U{1680}'
    || ('\U{2000}' <= c <= '\U{200A}')
    || c == '\U{2028}' || c == '\U{2029}' || c == '\U{202F}' || c == '\U{205F}'
    || c == '\U{3000}' || c == '\U{FEFF}'
  }

  predicate AllWhitespace(s: string)
  {
    forall i :: 0 <= i < |s| ==> IsJsWhitespace(s[i])
  }

  /** `s` without its leading whitespace. */
  function TrimStart(s: string): (r: string)
    ensures |r| <= |s| && r == s[|s| - |r|..]
    ensures |r| > 0 ==> !IsJsWhitespace(r[0])
  {
    if |s| > 0 && IsJsWhitespace(s[0]) then TrimStart(s[1..]) else s
  }

  /** Everything `TrimStart` drops is whitespace. */
  lemma {:induction false} TrimStartDropsWhitespace(s: string)
    ensures AllWhitespace(s[..|s| - |TrimStart(s)|])
  {
    if |s| > 0 && IsJsWhitespace(s[0]) {
      TrimStartDropsWhitespace(s[1..]);
      var r := TrimStart(s[1..]);
      assert s[..|s| - |r|] == [s[0]] + s[1..][..|s[1..]| - |r|];
    }
  }

  /** `s` without its trailing whitespace. */
  function TrimEnd(s: string): (r: string)
    ensures |r| <= |s| && r == s[..|r|]
    ensures |r| > 0 ==> !IsJsWhitespace(r[|r| - 1])
  {
    if |s| > 0 && IsJsWhitespace(s[|s| - 1]) then TrimEnd(s[..|s| - 1]) else s
  }

  /** Everything `TrimEnd` drops is whitespace. */
  lemma {:induction false} TrimEndDropsWhitespace(s: string)
    ensures AllWhitespace(s[|TrimEnd(s)|..])
  {
    if |s| > 0 && IsJsWhitespace(s[|s| - 1]) {
      TrimEndDropsWhitespace(s[..|s| - 1]);
      var r := TrimEnd(s[..|s| - 1]);
      assert s[|r|..] == s[..|s| - 1][|r|..] + [s[|s| - 1]];
    }
  }

  /** `s.trim()` */
  function Trim(s: string): (r: string)
  {
    TrimEnd(TrimStart(s))
  }

  /** `Trim(s)` is the slice of `s` that starts where `TrimStart` stopped. */
  lemma TrimIsSlice(s: string)
    ensures var i := |s| - |TrimStart(s)|;
      i + |Trim(s)| <= |s| && Trim(s) == s[i..i + |Trim(s)|]
  {
    var m := TrimStart(s);
    var r := TrimEnd(m);
    var i := |s| - |m|;
    SliceOfSuffix(s, i, |r|);
  }

  /** A prefix of a suffix is a slice. */
  lemma SliceOfSuffix<T>(s: seq<T>, i: nat, n: nat)
    requires i + n <= |s|
    ensures s[i..][..n] == s[i..i + n]
  {
  }

  /** What follows that slice in `s` is whitespace. */
  lemma TrimDropsTrailing(s: string)
    ensures var i := |s| - |TrimStart(s)|;
      i + |Trim(s)| <= |s| && AllWhitespace(s[i + |Trim(s)|..])
  {
    TrimEndDropsWhitespace(TrimStart(s));
    WhitespaceOfSuffix(s, TrimStart(s), Trim(s));
  }

  /** Whitespace that ends a suffix `m` of `s` ends `s`. */
  lemma WhitespaceOfSuffix(s: string, m: string, r: string)
    requires |m| <= |s| && m == s[|s| - |m|..]
    requires |r| <= |m| && AllWhitespace(m[|r|..])
    ensures AllWhitespace(s[|s| - |m| + |r|..])
  {
    SuffixOfSuffix(s, |s| - |m|, |r|);
  }

  /** A suffix of a suffix is a suffix. */
  lemma SuffixOfSuffix<T>(s: seq<T>, i: nat, n: nat)
    requires i + n <= |s|
    ensures s[i..][n..] == s[i + n..]
  {
  }

  /**
   * `Trim(s)` is a slice of `s` that is framed by whitespace on both
   * sides and neither begins nor ends with whitespace.
   */
  lemma TrimSplits(s: string)
    ensures var i := |s| - |TrimStart(s)|;
      && i + |Trim(s)| <= |s| && Trim(s) == s[i..i + |Trim(s)|]
      && AllWhitespace(s[..i]) && AllWhitespace(s[i + |Trim(s)|..])
    ensures |Trim(s)| > 0 ==> !IsJsWhitespace(Trim(s)[0]) && !IsJsWhitespace(Trim(s)[|Trim(s)| - 1])
  {
    TrimIsSlice(s);
    TrimDropsTrailing(s);
    TrimStartDropsWhitespace(s);
    var m := TrimStart(s);
    var r := TrimEnd(m);
    if |r| > 0 {
      assert r[0] == m[0];
    }
  }

  /** The name is blank (`!name.trim()`) exactly when it holds only whitespace. */
  lemma TrimEmptyIffBlank(s: string)
    ensures Trim(s) == [] <==> AllWhitespace(s)
  {
    var m := TrimStart(s);
    var k := |s| - |m|;
    TrimStartDropsWhitespace(s);
    TrimEndDropsWhitespace(m);
    if Trim(s) == [] {
      forall i | 0 <= i < |s| ensures IsJsWhitespace(s[i]) {
        assert s[i] == s[..k][i];
      }
    }
  }

  /** Trimming twice is trimming once. */
  lemma TrimIdempotent(s: string)
    ensures Trim(Trim(s)) == Trim(s)
  {
    var r := Trim(s);
    TrimSplits(s);
    if |r| > 0 {
      assert TrimStart(r) == r;
      assert TrimEnd(r) == r;
    }
  }

  // ---------------------------------------------------------------------
  // toLowerCase
  // ---------------------------------------------------------------------

  /**
   * Upper-case letters with a one-character lower-case form at a distance
   * of 0x20: A-Z and the Latin-1 capitals U+00C0-U+00DE except U+00D7.
   */
  predicate IsUpper(c: char)
  {
    ('A' <= c <= 'Z') || ('\U{C0}' <= c <= '\U{DE}' && c != '\U{D7}')
  }

  /** The lower-case form of one character. */
  function LowerChar(c: char): (r: char)
    ensures !IsUpper(r)
    ensures !IsUpper(c) ==> r == c
    ensures IsUpper(c) ==> r as int == c as int + 0x20
  {
    if IsUpper(c) then (c as int + 0x20) as char else c
  }

  /** `s.toLowerCase()` */
  function ToLower(s: string): (r: string)
    ensures |r| == |s|
    ensures forall i :: 0 <= i < |s| ==> r[i] == LowerChar(s[i])
  {
    if s == [] then [] else [LowerChar(s[0])] + ToLower(s[1..])
  }

  /** Lower-casing is idempotent. */
  lemma ToLowerIdempotent(s: string)
    ensures ToLower(ToLower(s)) == ToLower(s)
  {
  }
}
