/** lib/printk.c: padding and integer output, and reading the output back. */
module Printk {
  import opened Dyadic
  import opened Kernel

  const PRINT_BUF_LEN: nat := 64
  const LONG_RANGE: int := 0x8000_0000_0000_0000  // 2^63
  const ULONG_RANGE: int := 0x1_0000_0000_0000_0000

  /** PAD_ZERO and PAD_RIGHT */
  datatype Flags = Flags(zero: bool, right: bool)

  /** 'a' or 'A' as letbase. */
  function Digit(t: nat, upper: bool): (c: char)
    requires t < 16
    ensures c != '\0' && c != ' ' && c != '-' && DigitValue(c) == Some(t)
    ensures c == (if upper then "0123456789ABCDEF" else "0123456789abcdef")[t]
  {
    if t < 10 then '0' + t as char else if upper then 'A' + (t - 10) as char else 'a' + (t - 10) as char
  }

  function DigitValue(c: char): Option<nat> {
    if '0' <= c <= '9' then Some((c - '0') as nat)
    else if 'a' <= c <= 'f' then Some((c - 'a') as nat + 10)
    else if 'A' <= c <= 'F' then Some((c - 'A') as nat + 10)
    else None
  }

  /** The digits of u, most significant first; none for 0. */
  function Digits(u: nat, base: nat, upper: bool): string
    requires 2 <= base <= 16
  {
    if u == 0 then "" else Digits(u / base, base, upper) + [Digit(u % base, upper)]
  }

  function Fill(c: char, n: nat): string {
    seq(n, _ => c)
  }

  function Padding(len: nat, width: int): nat {
    if width > len then width - len else 0
  }

  /** What prints puts out for the string s. */
  function Printed(s: string, width: int, f: Flags): string {
    var pad := Fill(if f.zero then '0' else ' ', Padding(|s|, width));
    if f.right then s + pad else pad + s
  }

  predicate IsLong(i: int) { -LONG_RANGE <= i < LONG_RANGE }

  predicate Negative(i: int, base: nat, sign: bool) { sign && base == 10 && i < 0 }

  /** u: the value converted to unsigned long, negated first when a minus sign is printed. */
  function Magnitude(i: int, base: nat, sign: bool): nat
    requires IsLong(i)
  {
    if i >= 0 then i else if Negative(i, base, sign) then -i else i + ULONG_RANGE
  }

  /** What simple_outputi puts out. */
  function Rendered(i: int, base: nat, sign: bool, width: int, f: Flags, upper: bool): string
    requires IsLong(i) && 2 <= base <= 16
  {
    if i == 0 then Printed("0", width, f)
    else
      var d := Digits(Magnitude(i, base, sign), base, upper);
      if !Negative(i, base, sign) then Printed(d, width, f)
      else if width != 0 && f.zero then "-" + Printed(d, width - 1, f)
      else Printed("-" + d, width, f)
  }

  /** The characters needed without padding. */
  function NaturalLength(i: int, base: nat, sign: bool): nat
    requires IsLong(i) && 2 <= base <= 16
  {
    if i == 0 then 1
    else |Digits(Magnitude(i, base, sign), base, false)| + if Negative(i, base, sign) then 1 else 0
  }

  lemma {:induction false} DigitsCase(u: nat, base: nat, upper: bool)
    requires 2 <= base <= 16
    ensures |Digits(u, base, upper)| == |Digits(u, base, false)|
    decreases u
  {
    if u > 0 { DigitsCase(u / base, base, upper); }
  }

  /** Exactly max(width, natural length) characters come out. */
  lemma RenderedLength(i: int, base: nat, sign: bool, width: int, f: Flags, upper: bool)
    requires IsLong(i) && 2 <= base <= 16
    ensures var n := NaturalLength(i, base, sign);
      |Rendered(i, base, sign, width, f, upper)| == if width > n then width else n
  {
    DigitsCase(Magnitude(i, base, sign), base, upper);
  }

  // ---------- where the padding goes ----------

  ghost predicate All(s: string, c: char) {
    forall k | 0 <= k < |s| :: s[k] == c
  }

  /** Padding of c around the text: behind it when left-aligned, otherwise before it, but behind a minus sign when it is zeros. */
  ghost predicate PaddedText(out: string, text: string, minus: bool, f: Flags)
    requires |text| <= |out|
  {
    var p, c := |out| - |text|, if f.zero then '0' else ' ';
    if f.right then text <= out && All(out[|text|..], c)
    else if f.zero && minus then text != "" && out[0] == text[0] == '-' && All(out[1..1 + p], '0') && out[1 + p..] == text[1..]
    else All(out[..p], c) && out[p..] == text
  }

  lemma PrintedAligned(s: string, width: int, f: Flags)
    ensures |s| <= |Printed(s, width, f)| && PaddedText(Printed(s, width, f), s, false, f)
    ensures Printed(s, 0, f) == s
  {
    var out := Printed(s, width, f);
    if f.right { assert out[..|s|] == s; } else { assert out[|out| - |s|..] == s; }
  }

  /** The output is the unpadded text with the padding on the right side of it; left-aligned output begins with the text. */
  lemma RenderedAligned(i: int, base: nat, sign: bool, width: int, f: Flags, upper: bool)
    requires IsLong(i) && 2 <= base <= 16
    ensures var text := Rendered(i, base, sign, 0, f, upper); var out := Rendered(i, base, sign, width, f, upper);
      |text| <= |out| && PaddedText(out, text, Negative(i, base, sign), f)
  {
    hide Printed, Digits, Magnitude, PaddedText;
    var d := Digits(Magnitude(i, base, sign), base, upper);
    PrintedAligned("0", width, f);
    PrintedAligned(d, width, f);
    PrintedAligned("-" + d, width, f);
    PrintedAligned(d, width - 1, f);
    if f.zero {
      MinusAligned(d, Printed(d, width - 1, f), f);
    } else {
      MinusIsText(Printed("-" + d, width, f), "-" + d, f);
    }
    if i != 0 && Negative(i, base, sign) && f.zero && width == 0 { MinusAlone("-" + d, f); }
  }

  /** A sign in front of digits padded with zeros. */
  lemma MinusAligned(d: string, inner: string, f: Flags)
    requires f.zero && |d| <= |inner| && PaddedText(inner, d, false, f)
    ensures PaddedText("-" + inner, "-" + d, true, f)
  {
    var out := "-" + inner;
    var p := |inner| - |d|;
    assert out[1..] == inner;
    if f.right {
      assert out[..1 + |d|] == "-" + inner[..|d|];
      assert out[1 + |d|..] == inner[|d|..];
    } else {
      assert out[1..1 + p] == inner[..p] && out[1 + p..] == inner[p..];
      assert ("-" + d)[1..] == d;
    }
  }

  lemma MinusIsText(out: string, text: string, f: Flags)
    requires !f.zero && |text| <= |out| && PaddedText(out, text, false, f)
    ensures PaddedText(out, text, true, f)
  {
  }

  lemma MinusAlone(text: string, f: Flags)
    requires text != "" && text[0] == '-'
    ensures PaddedText(text, text, true, f)
  {
  }

  /** The text itself: a minus sign exactly for negative signed decimals, then digits of the case asked for. */
  ghost predicate TextOk(text: string, minus: bool, upper: bool) {
    && text != "" && (text[0] == '-' <==> minus)
    && forall k | (if minus then 1 else 0) <= k < |text| :: '0' <= text[k] <= '9' || (if upper then 'A' <= text[k] <= 'F' else 'a' <= text[k] <= 'f')
  }

  lemma {:induction false} DigitCase(u: nat, base: nat, upper: bool)
    requires 2 <= base <= 16
    ensures u > 0 ==> Digits(u, base, upper) != ""
    ensures forall k | 0 <= k < |Digits(u, base, upper)| ::
      var c := Digits(u, base, upper)[k]; '0' <= c <= '9' || (if upper then 'A' <= c <= 'F' else 'a' <= c <= 'f')
    decreases u
  {
    hide Digits, Digit;
    if u > 0 {
      DigitsStep(u, base, upper);
      DigitCase(u / base, base, upper);
      OneDigitCase(u % base, upper);
    } else {
      NoDigits(base, upper);
    }
  }

  lemma OneDigitCase(t: nat, upper: bool)
    requires t < 16
    ensures var c := Digit(t, upper); '0' <= c <= '9' || (if upper then 'A' <= c <= 'F' else 'a' <= c <= 'f')
  {
  }

  lemma RenderedText(i: int, base: nat, sign: bool, f: Flags, upper: bool)
    requires IsLong(i) && 2 <= base <= 16
    ensures TextOk(Rendered(i, base, sign, 0, f, upper), Negative(i, base, sign), upper)
  {
    hide Printed, Digits;
    var d := Digits(Magnitude(i, base, sign), base, upper);
    DigitCase(Magnitude(i, base, sign), base, upper);
    PrintedAligned("0", 0, f);
    PrintedAligned(d, 0, f);
    PrintedAligned("-" + d, 0, f);
  }

  // ---------- the digits fit the buffer ----------

  function Power(base: nat, n: nat): nat {
    if n == 0 then 1 else base * Power(base, n - 1)
  }

  lemma DivBelow(u: nat, base: nat, p: nat)
    requires base > 0
    ensures u / base < p <==> u < base * p
  {
    ModBounds(u, base);
    var q := u / base;
    if q < p { MulMonotone(base, q + 1, p); } else { MulMonotone(base, p, q); }
  }

  /** u has at most n digits exactly when it is below base^n. */
  lemma {:induction false} DigitCount(u: nat, base: nat, upper: bool, n: nat)
    requires 2 <= base <= 16
    ensures |Digits(u, base, upper)| <= n <==> u < Power(base, n)
    decreases n
  {
    if n > 0 && u > 0 {
      DigitCount(u / base, base, upper, n - 1);
      DivBelow(u, base, Power(base, n - 1));
    } else if n > 0 {
      PowerPositive(base, n);
    }
  }

  lemma {:induction false} PowerPositive(base: nat, n: nat)
    requires base > 0
    ensures Power(base, n) > 0
    decreases n
  {
    if n > 0 { PowerPositive(base, n - 1); }
  }

  lemma {:induction false} PowerTimes(base: nat, m: nat, n: nat)
    ensures Power(base, m + n) == Power(base, m) * Power(base, n)
    decreases m
  {
    if m > 0 {
      PowerTimes(base, m - 1, n);
      MulAssociates(base, Power(base, m - 1), Power(base, n));
    }
  }

  lemma MulAssociates(x: nat, y: nat, z: nat)
    ensures x * (y * z) == (x * y) * z
  {
  }

  lemma Powers()
    ensures Power(10, 20) > ULONG_RANGE && Power(16, 16) == ULONG_RANGE && Power(2, 63) == LONG_RANGE
  {
    assert Power(10, 4) == 10_000 && Power(10, 5) == 100_000;
    PowerTimes(10, 5, 5);
    PowerTimes(10, 10, 10);
    assert Power(16, 4) == 0x1_0000;
    PowerTimes(16, 4, 4);
    PowerTimes(16, 8, 8);
    assert Power(2, 7) == 128;
    PowerTimes(2, 7, 7);
    PowerTimes(2, 14, 7);
    PowerTimes(2, 21, 21);
    PowerTimes(2, 42, 21);
  }

  /** print_buf holds the digits, a sign and the terminator. */
  predicate Fits(i: int, base: nat, sign: bool)
    requires IsLong(i) && 2 <= base <= 16
  {
    NaturalLength(i, base, sign) < PRINT_BUF_LEN
  }

  /** Bases 10 and 16 always fit; base 2 fits exactly for values that are not negative. */
  lemma FitsIff(i: int, base: nat, sign: bool)
    requires IsLong(i) && base in {2, 10, 16}
    ensures Fits(i, base, sign) <==> base != 2 || i >= 0
  {
    Powers();
    hide Power, Digits;
    var u := Magnitude(i, base, sign);
    DigitCount(u, base, false, if base == 10 then 20 else if base == 16 then 16 else 63);
  }

  // ---------- the code ----------

  /** Where simple_outputchar sends characters: a caller's buffer or the UART. */
  class Sink {
    var text: string

    constructor ()
      ensures text == ""
    {
      text := "";
    }

    method Put(c: char)
      modifies this
      ensures text == old(text) + [c]
    {
      text := text + [c];
    }
  }

  /** prints, for the string that starts at buf[at] and ends before the NUL at buf[end]. */
  method Prints(out: Sink, buf: array<char>, at: nat, ghost end: nat, width0: int, f: Flags) returns (pc: int)
    requires at <= end < buf.Length && buf[end] == '\0' && forall k | at <= k < end :: buf[k] != '\0'
    modifies out
    ensures out.text == old(out.text) + Printed(buf[at..end], width0, f) && pc == |Printed(buf[at..end], width0, f)|
  {
    ghost var s := buf[at..end];
    ghost var before := out.text;
    var width := width0;
    var padChar := ' ';
    pc := 0;
    if width > 0 {
      var ptr := at;
      while buf[ptr] != '\0'
        invariant at <= ptr <= end
        decreases end - ptr
      {
        ptr := ptr + 1;
      }
      var len := ptr - at;
      if len >= width {
        width := 0;
      } else {
        width := width - len;
      }
      if f.zero {
        padChar := '0';
      }
    }
    assert (if width > 0 then width else 0) == Padding(|s|, width0);
    ghost var pad := Padding(|s|, width0);
    SamePadding(padChar, f, pad);
    hide Printed, Padding;
    if !f.right {
      width, pc := PutPadding(out, padChar, width, pc);
    }
    ghost var left := if f.right then "" else Fill(padChar, pad);
    assert out.text == before + left;
    var p := at;
    while buf[p] != '\0'
      invariant at <= p <= end && pc == |left| + p - at
      invariant out.text == before + left + buf[at..p]
      decreases end - p
    {
      out.Put(buf[p]);
      pc := pc + 1;
      p := p + 1;
    }
    assert buf[at..end] == s;
    ghost var right := if f.right then Fill(padChar, pad) else Fill(padChar, 0);
    width, pc := PutPadding(out, padChar, width, pc);
    assert out.text == before + left + s + right;
    Reassociate(before, left, s, right);
    PaddedIsPrinted(s, width0, f, padChar);
  }

  /** A padding loop of prints. */
  method PutPadding(out: Sink, c: char, width0: int, pc0: int) returns (width: int, pc: int)
    modifies out
    ensures var n := if width0 > 0 then width0 else 0;
      out.text == old(out.text) + Fill(c, n) && pc == pc0 + n && width == width0 - n
  {
    width, pc := width0, pc0;
    while width > 0
      invariant width <= width0 && (if width0 > 0 then width >= 0 else width == width0) && pc == pc0 + (width0 - width)
      invariant out.text == old(out.text) + Fill(c, width0 - width)
    {
      out.Put(c);
      pc := pc + 1;
      width := width - 1;
    }
    assert Fill(c, 0) == "" && old(out.text) + "" == old(out.text);
  }

  lemma Reassociate(a: string, b: string, c: string, d: string)
    ensures a + b + c + d == a + (b + c + d)
  {
  }

  function PaddedWith(s: string, c: char, pad: nat, right: bool): string {
    (if right then "" else Fill(c, pad)) + s + (if right then Fill(c, pad) else Fill(c, 0))
  }

  lemma PaddedIsPrinted(s: string, width: int, f: Flags, c: char)
    requires Fill(c, Padding(|s|, width)) == Fill(if f.zero then '0' else ' ', Padding(|s|, width))
    ensures PaddedWith(s, c, Padding(|s|, width), f.right) == Printed(s, width, f)
    ensures |Printed(s, width, f)| == |s| + Padding(|s|, width)
  {
    hide Padding;
  }

  lemma SamePadding(c: char, f: Flags, pad: nat)
    requires pad > 0 ==> c == if f.zero then '0' else ' '
    ensures Fill(c, pad) == Fill(if f.zero then '0' else ' ', pad)
  {
  }

  lemma NoDigits(base: nat, upper: bool)
    requires 2 <= base <= 16
    ensures Digits(0, base, upper) == ""
  {
  }

  lemma DigitsStep(u: nat, base: nat, upper: bool)
    requires u > 0 && 2 <= base <= 16
    ensures 0 <= u / base < u && 0 <= u % base < 16
    ensures Digits(u, base, upper) == Digits(u / base, base, upper) + [Digit(u % base, upper)]
  {
    hide Digit;
    ModBounds(u, base);
    DivBelow(u, base, u);
    MulMonotone(u, 1, base);
  }

  /** The digit loop: fills print_buf backwards from its terminator. */
  method FillDigits(buf: array<char>, u0: nat, base: nat, upper: bool) returns (s: nat)
    requires buf.Length == PRINT_BUF_LEN && 2 <= base <= 16 && |Digits(u0, base, upper)| < PRINT_BUF_LEN
    modifies buf
    ensures s < PRINT_BUF_LEN && buf[PRINT_BUF_LEN - 1] == '\0'
    ensures buf[s..PRINT_BUF_LEN - 1] == Digits(u0, base, upper)
  {
    hide Digits, Digit;
    s := PRINT_BUF_LEN - 1;
    buf[s] := '\0';
    var u: nat := u0;
    NoDigits(base, upper);
    while u > 0
      invariant s < PRINT_BUF_LEN && buf[PRINT_BUF_LEN - 1] == '\0'
      invariant Digits(u, base, upper) + buf[s..PRINT_BUF_LEN - 1] == Digits(u0, base, upper)
      decreases u
    {
      ghost var tail := buf[s..PRINT_BUF_LEN - 1];
      DigitsStep(u, base, upper);
      var t := u % base;
      s := s - 1;
      buf[s] := Digit(t, upper);
      assert buf[s..PRINT_BUF_LEN - 1] == [Digit(t, upper)] + tail;
      u := u / base;
    }
    assert "" + buf[s..PRINT_BUF_LEN - 1] == buf[s..PRINT_BUF_LEN - 1];
  }

  lemma {:induction false} DigitsClean(u: nat, base: nat, upper: bool)
    requires 2 <= base <= 16
    ensures forall k | 0 <= k < |Digits(u, base, upper)| ::
      var c := Digits(u, base, upper)[k]; c != '\0' && c != ' ' && c != '-'
    decreases u
  {
    if u > 0 { DigitsClean(u / base, base, upper); }
  }

  /** simple_outputi; the caller asks for a base in which the digits fit print_buf. */
  method OutputI(out: Sink, i: int, base: nat, sign: bool, width: int, f: Flags, upper: bool) returns (pc: int)
    requires IsLong(i) && 2 <= base <= 16 && Fits(i, base, sign)
    modifies out
    ensures out.text == old(out.text) + Rendered(i, base, sign, width, f, upper)
    ensures pc == |Rendered(i, base, sign, width, f, upper)|
  {
    hide Digits, Digit, Printed;
    var buf := new char[PRINT_BUF_LEN](_ => '\0');
    if i == 0 {
      buf[0] := '0';
      buf[1] := '\0';
      assert buf[0..1] == "0";
      pc := Prints(out, buf, 0, 1, width, f);
      return;
    }
    var neg := sign && base == 10 && i < 0;
    var u := if neg then -i else if i < 0 then i + ULONG_RANGE else i;
    assert u == Magnitude(i, base, sign);
    DigitsCase(u, base, upper);
    DigitsClean(u, base, upper);
    ghost var d := Digits(u, base, upper);
    var s := FillDigits(buf, u, base, upper);
    assert forall k | s <= k < PRINT_BUF_LEN - 1 :: buf[k] == d[k - s];
    pc := 0;
    var w := width;
    if neg {
      if w != 0 && f.zero {
        out.Put('-');
        pc := pc + 1;
        w := w - 1;
      } else {
        s := s - 1;
        buf[s] := '-';
        assert buf[s..PRINT_BUF_LEN - 1] == "-" + d;
      }
    }
    var n := Prints(out, buf, s, PRINT_BUF_LEN - 1, w, f);
    pc := pc + n;
  }

  // ---------- reading it back ----------

  /** The number a string of digits stands for, most significant first. */
  function Value(s: string, base: nat): Option<nat> {
    if s == "" then Some(0)
    else match (Value(s[..|s| - 1], base), DigitValue(s[|s| - 1]))
      case (Some(v), Some(t)) => if t < base then Some(v * base + t) else None
      case _ => None
  }

  function TrimLeft(s: string): string {
    if s != "" && s[0] == ' ' then TrimLeft(s[1..]) else s
  }

  function TrimRight(s: string): string {
    if s != "" && s[|s| - 1] == ' ' then TrimRight(s[..|s| - 1]) else s
  }

  /** Blanks around an optional minus sign and at least one digit. */
  function Parse(s: string, base: nat): Option<int> {
    ParseTrimmed(TrimRight(TrimLeft(s)), base)
  }

  function ParseTrimmed(t: string, base: nat): Option<int> {
    if t == "" || t == "-" then None
    else if t[0] == '-' then Number(Value(t[1..], base), true)
    else Number(Value(t, base), false)
  }

  function Number(v: Option<nat>, negative: bool): Option<int> {
    if v == None then None else Option<int>.Some(if negative then -(v.value as int) else v.value as int)
  }

  lemma {:induction false} ValueOfDigits(u: nat, base: nat, upper: bool)
    requires 2 <= base <= 16
    ensures Value(Digits(u, base, upper), base) == Some(u)
    decreases u
  {
    hide Digits, Digit;
    if u > 0 {
      DigitsStep(u, base, upper);
      ValueOfDigits(u / base, base, upper);
      var d := Digits(u, base, upper);
      assert d[..|d| - 1] == Digits(u / base, base, upper) && d[|d| - 1] == Digit(u % base, upper);
      LastDigit(u, base, upper);
    } else {
      NoDigits(base, upper);
    }
  }

  lemma LastDigit(u: nat, base: nat, upper: bool)
    requires 2 <= base <= 16
    ensures 0 <= u % base < base && DigitValue(Digit(u % base, upper)) == Some(u % base) && u / base * base + u % base == u
  {
    ModBounds(u, base);
  }

  /** Leading zeros do not change the number, trailing ones multiply it. */
  lemma {:induction false} LeadingZeros(s: string, n: nat, base: nat)
    requires base > 0
    ensures Value(Fill('0', n) + s, base) == Value(s, base)
    decreases |s|, n
  {
    var z := Fill('0', n) + s;
    if s == "" {
      if n > 0 {
        assert z[..|z| - 1] == Fill('0', n - 1) + "";
        LeadingZeros("", n - 1, base);
      }
    } else {
      assert z[..|z| - 1] == Fill('0', n) + s[..|s| - 1];
      LeadingZeros(s[..|s| - 1], n, base);
    }
  }

  lemma ValueSnoc(s: string, base: nat)
    requires base > 0 && Value(s, base).Some?
    ensures Value(s + "0", base) == Some(Value(s, base).value * base)
  {
    assert (s + "0")[..|s|] == s;
  }

  lemma {:induction false} TrailingZeros(s: string, n: nat, base: nat)
    requires base > 0 && Value(s, base).Some?
    ensures Value(s + Fill('0', n), base) == Some(Value(s, base).value * Power(base, n))
    decreases n
  {
    hide Value;
    if n == 0 {
      assert s + Fill('0', n) == s;
    } else {
      assert s + Fill('0', n) == (s + Fill('0', n - 1)) + "0";
      TrailingZeros(s, n - 1, base);
      ValueSnoc(s + Fill('0', n - 1), base);
      Regroup(Value(s, base).value, Power(base, n - 1), base);
    }
  }

  lemma Regroup(v: nat, p: nat, base: nat)
    ensures v * p * base == v * (base * p)
  {
  }

  lemma {:induction false} TrimLeftBlanks(s: string, n: nat)
    requires s == "" || s[0] != ' '
    ensures TrimLeft(Fill(' ', n) + s) == s
    decreases n
  {
    var z := Fill(' ', n) + s;
    if n == 0 { assert z == s; } else {
      assert z[1..] == Fill(' ', n - 1) + s;
      TrimLeftBlanks(s, n - 1);
    }
  }

  lemma {:induction false} TrimRightBlanks(s: string, n: nat)
    requires s == "" || s[|s| - 1] != ' '
    ensures TrimRight(s + Fill(' ', n)) == s
    decreases n
  {
    var z := s + Fill(' ', n);
    if n == 0 { assert z == s; } else {
      assert z[..|z| - 1] == s + Fill(' ', n - 1);
      TrimRightBlanks(s, n - 1);
    }
  }

  /** A string without blanks at its ends survives padding with blanks on either side. */
  lemma BlankPadding(s: string, width: int, right: bool, base: nat)
    requires s != "" && s[0] != ' ' && s[|s| - 1] != ' '
    ensures Parse(Printed(s, width, Flags(false, right)), base) == ParseTrimmed(s, base)
  {
    hide TrimLeft, TrimRight, ParseTrimmed, Padding;
    if right {
      BlanksRight(s, Padding(|s|, width));
    } else {
      BlanksLeft(s, Padding(|s|, width));
    }
  }

  lemma BlanksLeft(s: string, n: nat)
    requires s != "" && s[0] != ' ' && s[|s| - 1] != ' '
    ensures TrimRight(TrimLeft(Fill(' ', n) + s)) == s
  {
    hide TrimLeft, TrimRight;
    TrimLeftBlanks(s, n);
    assert s + Fill(' ', 0) == s;
    TrimRightBlanks(s, 0);
  }

  lemma BlanksRight(s: string, n: nat)
    requires s != "" && s[0] != ' ' && s[|s| - 1] != ' '
    ensures TrimRight(TrimLeft(s + Fill(' ', n))) == s
  {
    hide TrimLeft, TrimRight;
    var p := s + Fill(' ', n);
    assert Fill(' ', 0) + p == p;
    TrimLeftBlanks(p, 0);
    TrimRightBlanks(s, n);
  }

  /** A string of digits. */
  predicate Clean(s: string) {
    s != "" && forall k | 0 <= k < |s| :: s[k] != ' ' && s[k] != '-'
  }

  lemma ParseClean(s: string, base: nat)
    requires Clean(s)
    ensures Parse(s, base) == ParseTrimmed(s, base) == Number(Value(s, base), false)
    ensures Parse("-" + s, base) == ParseTrimmed("-" + s, base) == Number(Value(s, base), true)
  {
    hide TrimLeft, TrimRight, Value, Number;
    assert s[0] != ' ' && s[|s| - 1] != ' ' && s[0] != '-';
    var m := "-" + s;
    assert m[1..] == s;
    assert Fill(' ', 0) + s == s && Fill(' ', 0) + m == m;
    BlanksLeft(s, 0);
    BlanksLeft(m, 0);
  }

  lemma ZeroPadClean(d: string, width: int, right: bool)
    requires Clean(d)
    ensures Clean(Printed(d, width, Flags(true, right)))
  {
  }

  /** The number behind a zero-padded string of digits. */
  function ZeroPadded(v: nat, pad: nat, right: bool, base: nat): nat {
    if right then v * Power(base, pad) else v
  }

  lemma ZeroPadding(d: string, v: nat, width: int, right: bool, base: nat)
    requires base > 0 && Value(d, base) == Some(v)
    ensures Value(Printed(d, width, Flags(true, right)), base) == Some(ZeroPadded(v, Padding(|d|, width), right, base))
  {
    LeadingZeros(d, Padding(|d|, width), base);
    TrailingZeros(d, Padding(|d|, width), base);
  }

  lemma {:induction false} PowerBig(base: nat, n: nat)
    requires base >= 2 && n > 0
    ensures Power(base, n) >= 2
    decreases n
  {
    PowerPositive(base, n - 1);
    MulMonotone(base, 1, Power(base, n - 1));
  }

  /** Zeros on the right change every number but 0. */
  lemma TrailingChanges(v: nat, pad: nat, base: nat)
    requires base >= 2
    ensures v * Power(base, pad) == v <==> v == 0 || pad == 0
  {
    if pad > 0 && v > 0 {
      PowerBig(base, pad);
      MulMonotone(v, 2, Power(base, pad));
    }
  }

  /** Without a minus sign the digits stand for the value as an unsigned long: 2^64 is added to a negative one. */
  lemma MagnitudeIs(i: int, base: nat, sign: bool)
    requires IsLong(i)
    ensures Magnitude(i, base, sign) == if Negative(i, base, sign) then -i else i % ULONG_RANGE
    ensures sign && base == 10 && !Negative(i, base, sign) ==> i % ULONG_RANGE == i
  {
  }

  lemma DigitsAreClean(u: nat, base: nat, upper: bool)
    requires 2 <= base <= 16 && u > 0
    ensures Clean(Digits(u, base, upper)) && Value(Digits(u, base, upper), base) == Some(u)
  {
    DigitsStep(u, base, upper);
    DigitsClean(u, base, upper);
    ValueOfDigits(u, base, upper);
  }

  /** Padding digits d of value v, without a sign. */
  lemma PlainRoundTrip(d: string, v: nat, width: int, f: Flags, base: nat)
    requires base >= 2 && Clean(d) && Value(d, base) == Some(v)
    ensures Parse(Printed(d, width, f), base) == Number(Some(v), false) <==> v == 0 || !(f.zero && f.right && width > |d|)
  {
    hide Value, Parse, ParseTrimmed, Power, Clean, Printed;
    CleanEnds(d);
    ParseClean(d, base);
    if f.zero {
      ZeroPadClean(d, width, f.right);
      ZeroPadding(d, v, width, f.right, base);
      ParseClean(Printed(d, width, Flags(true, f.right)), base);
      TrailingChanges(v, Padding(|d|, width), base);
    } else {
      BlankPadding(d, width, f.right, base);
    }
  }

  lemma CleanEnds(d: string)
    requires Clean(d)
    ensures d != "" && d[0] != ' ' && d[|d| - 1] != ' '
  {
  }

  /** The same behind a minus sign, which goes in front of the zeros. */
  lemma SignedRoundTrip(d: string, v: nat, width: int, f: Flags, base: nat)
    requires base >= 2 && Clean(d) && Value(d, base) == Some(v) && v > 0
    ensures var out := if width != 0 && f.zero then "-" + Printed(d, width - 1, f) else Printed("-" + d, width, f);
      Parse(out, base) == Number(Some(v), true) <==> !(f.zero && f.right && width > |d| + 1)
  {
    hide Value, Parse, ParseTrimmed, Power, Clean;
    CleanEnds(d);
    ParseClean(d, base);
    if f.zero && width != 0 {
      ZeroPadClean(d, width - 1, f.right);
      ZeroPadding(d, v, width - 1, f.right, base);
      ParseClean(Printed(d, width - 1, Flags(true, f.right)), base);
      TrailingChanges(v, Padding(|d|, width - 1), base);
      hide Printed;
    } else if f.zero {
      assert Printed("-" + d, width, f) == "-" + d;
    } else {
      BlankPadding("-" + d, width, f.right, base);
    }
  }

  lemma RoundTripMagnitude(i: int, base: nat, sign: bool, width: int, f: Flags, upper: bool)
    requires IsLong(i) && 2 <= base <= 16
    ensures Parse(Rendered(i, base, sign, width, f, upper), base) == Number(Some(Magnitude(i, base, sign)), Negative(i, base, sign)) <==>
      i == 0 || !(f.zero && f.right && width > NaturalLength(i, base, sign))
  {
    hide Parse, Printed, Digits, Value, Number;
    if i == 0 {
      ZeroDigit(base);
      PlainRoundTrip("0", 0, width, f, base);
    } else {
      var u := Magnitude(i, base, sign);
      DigitsCase(u, base, upper);
      DigitsAreClean(u, base, upper);
      if Negative(i, base, sign) {
        SignedRoundTrip(Digits(u, base, upper), u, width, f, base);
      } else {
        PlainRoundTrip(Digits(u, base, upper), u, width, f, base);
      }
    }
  }

  /** Reading the output back gives the number that was printed, or for the unsigned bases the value modulo 2^64, except that
      zero-padding on the right multiplies what does not fill the width: exactly then, and not for 0, another number is read. */
  lemma RoundTripIff(i: int, base: nat, sign: bool, width: int, f: Flags, upper: bool)
    requires IsLong(i) && 2 <= base <= 16
    ensures Parse(Rendered(i, base, sign, width, f, upper), base) == Some(if sign && base == 10 then i else i % ULONG_RANGE) <==>
      i == 0 || !(f.zero && f.right && width > NaturalLength(i, base, sign))
  {
    hide Parse, Rendered, NaturalLength, Magnitude;
    MagnitudeIs(i, base, sign);
    RoundTripMagnitude(i, base, sign, width, f, upper);
  }

  lemma ZeroDigit(base: nat)
    requires base >= 2
    ensures Clean("0") && Value("0", base) == Some(0)
  {
    assert "0"[..0] == "";
    assert Value("", base) == Some(0);
  }
}
