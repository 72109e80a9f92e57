/**
 * The JavaScript string built-ins the source relies on, on `seq<char>`:
 * `String.prototype.split` with a one-character separator, `Number.parseInt(s, 10)`,
 * `Number(s)` for plain decimal integers, `Number.prototype.toString()` for
 * non-negative integers, `padStart(n, "0")` and the `\s` whitespace class.
 */
module Text {
  import opened Common

  /** The characters of the regular-expression class `\s` (also what `trim` removes). */
  predicate IsJsWhitespace(c: char)
  {
    c == '\t' || c == '\n' || c == '\U{B}' || c == '\U{C}' || c == '\r' || c == ' ' ||
    c == '\U{A0}' || c == '\U{1680}' || ('\U{2000}' <= c <= '\U{200A}') ||
    c == '\U{2028}' || c == '\U{2029}' || c == '\U{202F}' || c == '\U{205F}' ||
    c == '\U{3000}' || c == '\U{FEFF}'
  }

  predicate IsDigit(c: char) { '0' <= c <= '9' }

  function DigitValue(c: char): (v: nat)
    requires IsDigit(c)
    ensures v < 10
  {
    (c as int) - ('0' as int)
  }

  function DigitChar(v: nat): (c: char)
    requires v < 10
    ensures IsDigit(c) && DigitValue(c) == v
  {
    (('0' as int) + v) as char
  }

  predicate AllDigits(s: string) { forall i :: 0 <= i < |s| ==> IsDigit(s[i]) }

  /** Value of a string of decimal digits, most significant first. */
  function DigitsValue(s: string): nat
    requires AllDigits(s)
  {
    if s == [] then 0 else 10 * DigitsValue(s[..|s| - 1]) + DigitValue(s[|s| - 1])
  }

  /** `n.toString()` for a non-negative integer: its shortest decimal spelling. */
  function NatToString(n: nat): (s: string)
    ensures |s| >= 1 && AllDigits(s)
    ensures DigitsValue(s) == n
    ensures s[0] == '0' ==> n == 0
  {
    if n < 10 then [DigitChar(n)]
    else
      var prefix := NatToString(n / 10);
      var s := prefix + [DigitChar(n % 10)];
      assert s[..|s| - 1] == prefix;
      s
  }

  /** Numbers below 100 are written with at most two digits. */
  lemma NatToStringShort(n: nat)
    requires n < 100
    ensures |NatToString(n)| <= 2
  {
  }

  /** Index of the first occurrence of `c` in `s`. */
  function IndexOf(s: string, c: char): (i: nat)
    requires c in s
    ensures i < |s| && s[i] == c && c !in s[..i]
  {
    if s[0] == c then 0
    else
      assert s == [s[0]] + s[1..];
      1 + IndexOf(s[1..], c)
  }

  /** `s.split(sep)`: the pieces between occurrences of `sep`; never empty. */
  function Split(s: string, sep: char): (pieces: seq<string>)
    ensures |pieces| >= 1
    ensures forall i :: 0 <= i < |pieces| ==> sep !in pieces[i]
    ensures Join(pieces, sep) == s
    decreases |s|
  {
    if sep !in s then [s]
    else
      var i := IndexOf(s, sep);
      var rest := Split(s[i + 1..], sep);
      assert s == s[..i] + [sep] + s[i + 1..];
      assert ([s[..i]] + rest)[1..] == rest;
      [s[..i]] + rest
  }

  /** `pieces.join(sep)`. */
  function Join(pieces: seq<string>, sep: char): string
    requires |pieces| >= 1
  {
    if |pieces| == 1 then pieces[0] else pieces[0] + [sep] + Join(pieces[1..], sep)
  }

  /** A separator after a separator-free prefix is where `split` cuts first. */
  lemma SplitCons(a: string, b: string, sep: char)
    requires sep !in a
    ensures Split(a + [sep] + b, sep) == [a] + Split(b, sep)
  {
    var s := a + [sep] + b;
    assert s[|a|] == sep;
    assert s[..|a|] == a;
    assert s[|a| + 1..] == b;
  }

  /** Splitting undoes joining when no piece contains the separator. */
  lemma {:induction false} SplitJoin(pieces: seq<string>, sep: char)
    requires |pieces| >= 1
    requires forall i :: 0 <= i < |pieces| ==> sep !in pieces[i]
    ensures Split(Join(pieces, sep), sep) == pieces
  {
    if |pieces| > 1 {
      SplitCons(pieces[0], Join(pieces[1..], sep), sep);
      SplitJoin(pieces[1..], sep);
      assert pieces == [pieces[0]] + pieces[1..];
    }
  }

  /** Piece `k` of a split, or `None` where JavaScript destructuring yields `undefined`. */
  function PieceAt(pieces: seq<string>, k: nat): Option<string>
  {
    if k < |pieces| then Some(pieces[k]) else None
  }

  function TrimStart(s: string): (r: string)
    ensures |r| <= |s| && r == s[|s| - |r|..]
    ensures r != [] ==> !IsJsWhitespace(r[0])
  {
    if s != [] && IsJsWhitespace(s[0]) then TrimStart(s[1..]) else s
  }

  function TrimEnd(s: string): (r: string)
    ensures |r| <= |s| && r == s[..|r|]
    ensures r != [] ==> !IsJsWhitespace(r[|r| - 1])
  {
    if s != [] && IsJsWhitespace(s[|s| - 1]) then TrimEnd(s[..|s| - 1]) else s
  }

  /** Length of the longest prefix of decimal digits. */
  function DigitRun(s: string): (k: nat)
    ensures k <= |s| && AllDigits(s[..k])
    ensures k < |s| ==> !IsDigit(s[k])
  {
    if s != [] && IsDigit(s[0]) then
      var k := 1 + DigitRun(s[1..]);
      assert forall i :: 1 <= i < k ==> s[..k][i] == s[1..][..k - 1][i - 1];
      k
    else 0
  }

  /**
   * `Number.parseInt(s, 10)`: skip leading whitespace, read an optional sign, then the
   * longest run of decimal digits; `None` (NaN) when there is no digit; trailing
   * characters are ignored.
   */
  function ParseInt(s: string): (r: Option<int>)
  {
    var t := TrimStart(s);
    var negative := t != [] && t[0] == '-';
    var body := if t != [] && (t[0] == '-' || t[0] == '+') then t[1..] else t;
    var k := DigitRun(body);
    if k == 0 then None
    else
      var v: int := DigitsValue(body[..k]);
      Some(if negative then -v else v)
  }

  /** `Number.parseInt(x, 10)` where `x` may be `undefined` (parsed as the text "undefined"). */
  function ParseIntOpt(s: Option<string>): Option<int>
  {
    match s
    case None => None
    case Some(t) => ParseInt(t)
  }

  /**
   * `Number(s)` restricted to integers: surrounding whitespace is ignored, the empty string
   * is 0, otherwise an optional sign followed only by decimal digits; anything else is NaN.
   */
  function JsNumber(s: string): (r: Option<int>)
  {
    var t := TrimEnd(TrimStart(s));
    if t == [] then Some(0)
    else
      var negative := t[0] == '-';
      var body := if t[0] == '-' || t[0] == '+' then t[1..] else t;
      if body != [] && AllDigits(body) then
        var v: int := DigitsValue(body);
        Some(if negative then -v else v)
      else None
  }

  /** `Number(x)` where `x` may be `undefined`, which gives NaN. */
  function JsNumberOpt(s: Option<string>): Option<int>
  {
    match s
    case None => None
    case Some(t) => JsNumber(t)
  }

  /** `s.padStart(n, "0")`. */
  function PadStart(s: string, n: nat): (r: string)
    ensures |r| == if |s| >= n then |s| else n
    ensures r[|r| - |s|..] == s
    ensures forall i :: 0 <= i < |r| - |s| ==> r[i] == '0'
  {
    if |s| >= n then s
    else
      var zeros := seq(n - |s|, _ => '0');
      assert (zeros + s)[n - |s|..] == s;
      zeros + s
  }

  lemma {:induction false} DigitsValueLeadingZeros(s: string, k: nat)
    requires AllDigits(s) && k <= |s|
    requires forall i :: 0 <= i < k ==> s[i] == '0'
    ensures DigitsValue(s) == DigitsValue(s[k..])
    decreases |s|
  {
    if k < |s| {
      DigitsValueLeadingZeros(s[..|s| - 1], k);
      assert s[..|s| - 1][k..] == s[k..][..|s| - k - 1];
    } else {
      assert s[k..] == [];
      if s != [] {
        DigitsValueLeadingZeros(s[..|s| - 1], k - 1);
        assert s[..|s| - 1][k - 1..] == [];
      }
    }
  }

  /** `parseInt` reads back what `toString` wrote. */
  lemma ParseIntNatToString(n: nat)
    ensures ParseInt(NatToString(n)) == Some(n)
  {
    var s := NatToString(n);
    ParseIntDigits(s);
  }

  /** `parseInt` of a string of decimal digits is their value. */
  lemma ParseIntDigits(s: string)
    requires s != [] && AllDigits(s)
    ensures ParseInt(s) == Some(DigitsValue(s) as int)
  {
    TrimDigits(s);
    DigitRunAllDigits(s);
    assert s[..|s|] == s;
  }

  /** Trimming leaves a string of digits alone. */
  lemma TrimDigits(s: string)
    requires s != [] && AllDigits(s)
    ensures TrimStart(s) == s && TrimEnd(s) == s
  {
    NotWhitespace(s[0]);
    NotWhitespace(s[|s| - 1]);
  }

  lemma NotWhitespace(c: char)
    requires IsDigit(c)
    ensures !IsJsWhitespace(c)
  {
  }

  /** A string of digits holds no separator that is not a digit. */
  lemma DigitsExclude(s: string, c: char)
    requires AllDigits(s) && !IsDigit(c)
    ensures c !in s
  {
  }

  lemma {:induction false} DigitRunAllDigits(s: string)
    requires AllDigits(s)
    ensures DigitRun(s) == |s|
  {
    if s != [] {
      DigitRunAllDigits(s[1..]);
    }
  }

  /** `Number` reads back a zero-padded `toString`. */
  lemma JsNumberPadded(n: nat, width: nat)
    ensures JsNumber(PadStart(NatToString(n), width)) == Some(n)
  {
    var s := NatToString(n);
    var p := PadStart(s, width);
    PaddedDigits(s, width);
    JsNumberDigits(p);
    DigitsValueLeadingZeros(p, |p| - |s|);
  }

  lemma JsNumberDigits(p: string)
    requires p != [] && AllDigits(p)
    ensures JsNumber(p) == Some(DigitsValue(p))
  {
    TrimDigits(p);
  }

  lemma PaddedDigits(s: string, width: nat)
    requires AllDigits(s)
    ensures AllDigits(PadStart(s, width))
  {
    var p := PadStart(s, width);
    var k := |p| - |s|;
    forall i | 0 <= i < |p| ensures IsDigit(p[i]) {
      if i >= k { assert p[i] == p[k..][i - k]; }
    }
  }

  /** A zero-padded `toString` is all digits, at least `width` long, and `Number` reads it back. */
  lemma PaddedNumber(n: nat, width: nat)
    ensures var p := PadStart(NatToString(n), width);
      AllDigits(p) && |p| >= width && JsNumber(p) == Some(n)
    ensures n < 100 && width == 2 ==> |PadStart(NatToString(n), width)| == 2
  {
    PaddedDigits(NatToString(n), width);
    JsNumberPadded(n, width);
    if n < 100 {
      NatToStringShort(n);
    }
  }

  /** Two digit strings joined by a non-digit split back apart. */
  lemma SplitDigits2(a: string, b: string, sep: char)
    requires AllDigits(a) && AllDigits(b) && !IsDigit(sep)
    ensures Split(a + [sep] + b, sep) == [a, b]
  {
    DigitsExclude(a, sep);
    DigitsExclude(b, sep);
    SplitJoin([a, b], sep);
  }

  /** Three digit strings joined by a non-digit split back apart. */
  lemma SplitDigits3(a: string, b: string, c: string, sep: char)
    requires AllDigits(a) && AllDigits(b) && AllDigits(c) && !IsDigit(sep)
    ensures Split(a + [sep] + b + [sep] + c, sep) == [a, b, c]
  {
    var bc := b + [sep] + c;
    assert a + [sep] + b + [sep] + c == a + [sep] + bc;
    DigitsExclude(a, sep);
    SplitCons(a, bc, sep);
    SplitDigits2(b, c, sep);
  }

  lemma ParseIntNatToStringOpt(n: nat)
    ensures ParseIntOpt(Some(NatToString(n))) == Some(n)
  {
    ParseIntNatToString(n);
  }
}
