/**
 * Rest times as text: the seconds an exercise's free-text `rest` field
 * names (`rest.match(/(\d+)/)` followed by `parseInt`), and the decimal,
 * zero-padded text the timer display writes.
 */
module RestTime {
  import opened Wrappers

  /** The characters `\d` matches (ASCII digits). */
  predicate IsDigit(c: char)
  {
    '0' <= c <= '9'
  }

  predicate AllDigits(s: string)
  {
    forall i :: 0 <= i < |s| ==> IsDigit(s[i])
  }

  /** The value of a decimal digit (0 for any other character). */
  function DigitValue(c: char): nat
  {
    if IsDigit(c) then c as int - '0' as int else 0
  }

  function DigitChar(d: nat): (c: char)
    requires d < 10
    ensures IsDigit(c) && DigitValue(c) == d
  {
    ('0' as int + d) as char
  }

  /** Position of the first digit of `s`, if it has one. */
  function FirstDigitIndex(s: string): (r: Option<nat>)
    ensures r.Some? ==> r.value < |s|
  {
    if s == [] then None
    else if IsDigit(s[0]) then Some(0)
    else match FirstDigitIndex(s[1..])
      case None => None
      case Some(i) => Some(i + 1)
  }

  /** `FirstDigitIndex` finds the first digit, and finds none only when there is none. */
  lemma {:induction false} FirstDigitIndexSpec(s: string)
    ensures FirstDigitIndex(s).Some? ==> IsDigit(s[FirstDigitIndex(s).value])
    ensures FirstDigitIndex(s).Some? ==> forall j :: 0 <= j < FirstDigitIndex(s).value ==> !IsDigit(s[j])
    ensures FirstDigitIndex(s).None? ==> forall j :: 0 <= j < |s| ==> !IsDigit(s[j])
  {
    if s != [] && !IsDigit(s[0]) {
      FirstDigitIndexSpec(s[1..]);
      assert forall j :: 1 <= j < |s| ==> s[j] == s[1..][j - 1];
    }
  }

  /** The longest prefix of `s` made of digits only (the greedy `\d+`). */
  function DigitPrefix(s: string): (r: string)
    ensures |r| <= |s|
  {
    if s != [] && IsDigit(s[0]) then [s[0]] + DigitPrefix(s[1..]) else []
  }

  /** `DigitPrefix` is a prefix, all digits, and not followed by a digit. */
  lemma {:induction false} DigitPrefixSpec(s: string)
    ensures DigitPrefix(s) == s[..|DigitPrefix(s)|] && AllDigits(DigitPrefix(s))
    ensures |DigitPrefix(s)| < |s| ==> !IsDigit(s[|DigitPrefix(s)|])
  {
    if s != [] && IsDigit(s[0]) {
      DigitPrefixSpec(s[1..]);
    }
  }

  /**
   * `d` is the first maximal run of digits of `s`, starting at `k`:
   * nothing before `k` is a digit and the run is not followed by one.
   */
  predicate FirstRunAt(s: string, k: nat, d: string)
  {
    && k + |d| <= |s| && s[k..k + |d|] == d
    && (forall j :: 0 <= j < k ==> !IsDigit(s[j]))
    && (k + |d| == |s| || !IsDigit(s[k + |d|]))
  }

  /** The capture group of `s.match(/(\d+)/)`; `None` when there is no match. */
  function FirstDigitRun(s: string): (r: Option<string>)
  {
    match FirstDigitIndex(s)
    case None => None
    case Some(k) => Some(DigitPrefix(s[k..]))
  }

  /**
   * The capture is absent exactly when `s` holds no digit; otherwise it
   * is a non-empty run of digits, the first maximal one of `s`.
   */
  lemma FirstDigitRunSpec(s: string)
    ensures FirstDigitRun(s).None? <==> forall j :: 0 <= j < |s| ==> !IsDigit(s[j])
    ensures FirstDigitRun(s).Some? ==> |FirstDigitRun(s).value| > 0 && AllDigits(FirstDigitRun(s).value)
    ensures FirstDigitRun(s).Some? ==> exists k: nat :: FirstRunAt(s, k, FirstDigitRun(s).value)
  {
    FirstDigitIndexSpec(s);
    if FirstDigitIndex(s).Some? {
      var k := FirstDigitIndex(s).value;
      var d := DigitPrefix(s[k..]);
      DigitPrefixSpec(s[k..]);
      assert s[k..][..|d|] == s[k..k + |d|];
      assert d[0] == s[k];
      assert FirstRunAt(s, k, d);
    }
  }

  /** `parseInt(ds)` for a string of decimal digits. */
  function DecimalValue(ds: string): nat
  {
    if ds == [] then 0
    else 10 * DecimalValue(ds[..|ds| - 1]) + DigitValue(ds[|ds| - 1])
  }

  /** The rest, in seconds, that an exercise's `rest` text names, if any. */
  function RestSeconds(rest: string): Option<nat>
  {
    match FirstDigitRun(rest)
    case None => None
    case Some(d) => Some(DecimalValue(d))
  }

  /** The rest `startRestTimer` uses when `rest` holds no digit. */
  const DefaultRestSeconds: nat := 60

  /** The rest `startRestTimer` counts down for an exercise. */
  function StartRestSeconds(rest: string): nat
  {
    RestSeconds(rest).GetOr(DefaultRestSeconds)
  }

  /** The catalog's rest texts, and one without digits. */
  lemma RestSecondsExamples()
    ensures RestSeconds("60-90s") == Some(60)
    ensures RestSeconds("90s") == Some(90)
    ensures RestSeconds("livre") == None
    ensures StartRestSeconds("livre") == 60
  {
    var a := "60-90s";
    assert a[0..] == a;
    assert DigitPrefix(a) == "60" by {
      assert DigitPrefix(a[2..]) == [];
      assert a[1..][1..] == a[2..];
    }
    assert "60"[..1] == "6" && "6"[..0] == [];
    assert DecimalValue("60") == 60;
    var b := "90s";
    assert b[0..] == b;
    assert DigitPrefix(b) == "90" by {
      assert DigitPrefix(b[2..]) == [];
      assert b[1..][1..] == b[2..];
    }
    assert "90"[..1] == "9" && "9"[..0] == [];
    assert DecimalValue("90") == 90;
    var c := "livre";
    assert forall j :: 0 <= j < |c| ==> !IsDigit(c[j]);
    FirstDigitRunSpec(c);
  }

  // ---------------------------------------------------------------------
  // Writing seconds back as text
  // ---------------------------------------------------------------------

  /** `n.toString()` for a natural number. */
  function ToDecimal(n: nat): (r: string)
    ensures |r| > 0 && AllDigits(r)
    ensures n < 10 ==> |r| == 1
    ensures 10 <= n < 100 ==> |r| == 2
  {
    if n < 10 then [DigitChar(n)] else ToDecimal(n / 10) + [DigitChar(n % 10)]
  }

  /** `s.padStart(2, '0')` */
  function PadStart2(s: string): (r: string)
    ensures |r| == if |s| < 2 then 2 else |s|
    ensures r[|r| - |s|..] == s
    ensures forall i :: 0 <= i < |r| - |s| ==> r[i] == '0'
  {
    if |s| == 0 then "00" else if |s| == 1 then ['0'] + s else s
  }

  /** Reading back the decimal text of `n` gives `n`. */
  lemma {:induction false} DecimalRoundTrip(n: nat)
    ensures DecimalValue(ToDecimal(n)) == n
  {
    if n >= 10 {
      var t := ToDecimal(n);
      assert t[..|t| - 1] == ToDecimal(n / 10);
      DecimalRoundTrip(n / 10);
    }
  }

  /** A leading zero does not change the value of a digit string. */
  lemma {:induction false} LeadingZero(s: string)
    ensures DecimalValue(['0'] + s) == DecimalValue(s)
  {
    if s != [] {
      var z := ['0'] + s;
      assert z[..|z| - 1] == ['0'] + s[..|s| - 1];
      LeadingZero(s[..|s| - 1]);
    }
  }

  /** Zero-padding keeps the value of a digit string. */
  lemma PaddedValue(s: string)
    ensures DecimalValue(PadStart2(s)) == DecimalValue(s)
  {
    if |s| == 0 {
      LeadingZero("0");
    } else if |s| == 1 {
      LeadingZero(s);
    }
  }
}
