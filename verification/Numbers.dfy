/** Printing and parsing of numbers: printnum and the %d case of vprintfmt (lib/printfmt.c), strtol
    (lib/string.c). */
module Numbers {
  import opened CInt

  /** Where putch puts its characters. */
  class Sink {
    var out: string

    constructor ()
      ensures out == ""
    {
      out := "";
    }

    method Putch(ch: char)
      modifies this
      ensures out == old(out) + [ch]
    {
      out := out + [ch];
    }
  }

  const HEX := "0123456789abcdef"

  /** The digits of `num`, most significant first, without leading zeros. */
  function Digits(num: nat, base: nat): (s: string)
    requires 2 <= base <= 16
    ensures |s| > 0
  {
    (if num >= base then Digits(num / base, base) else "") + [HEX[num % base]]
  }

  function Repeat(ch: char, n: int): (s: string)
    ensures |s| == if n > 0 then n else 0
    ensures forall i :: 0 <= i < |s| ==> s[i] == ch
  {
    if n <= 0 then "" else Repeat(ch, n - 1) + [ch]
  }

  /** The digits, with padding before them up to `width`. */
  function Render(num: nat, base: nat, width: int, padc: char): (s: string)
    requires 2 <= base <= 16
    ensures |s| == if width > |Digits(num, base)| then width else |Digits(num, base)|
  {
    Repeat(padc, width - |Digits(num, base)|) + Digits(num, base)
  }

  /** One digit more to the right. */
  lemma RenderGrows(num: nat, base: nat, width: int, padc: char)
    requires 2 <= base <= 16
    ensures num >= base ==>
      && num / base < num
      && Render(num, base, width, padc) == Render(num / base, base, width - 1, padc) + [HEX[num % base]]
    ensures num < base ==> Render(num, base, width, padc) == Repeat(padc, width - 1) + [HEX[num % base]]
  {
    if num >= base {
      SmallerQuotient(num, base);
    }
  }

  lemma SmallerQuotient(num: nat, base: nat)
    requires 2 <= base <= num
    ensures num / base < num
  {
    var q, r := num / base, num % base;
    assert num == q * base + r;
    assert q * base == 2 * q + q * (base - 2);
  }

  /** printnum. */
  method Printnum(sink: Sink, num: nat, base: nat, width: int, padc: char)
    requires 2 <= base <= 16
    modifies sink
    ensures sink.out == old(sink.out) + Render(num, base, width, padc)
    decreases num
  {
    RenderGrows(num, base, width, padc);
    hide Render, Digits, Repeat;
    ghost var before := sink.out;
    ghost var front := if num >= base then Render(num / base, base, width - 1, padc) else Repeat(padc, width - 1);
    if num >= base {
      Printnum(sink, num / base, base, width - 1, padc);
    } else {
      Pad(sink, width, padc);
    }
    assert sink.out == before + front;
    sink.Putch(HEX[num % base]);
    assert sink.out == before + (front + [HEX[num % base]]);
  }

  /** The pad characters before the first digit. */
  method Pad(sink: Sink, width0: int, padc: char)
    modifies sink
    ensures sink.out == old(sink.out) + Repeat(padc, width0 - 1)
  {
    var width := width0 - 1;
    ghost var n: nat := 0;
    while width > 0
      invariant width == width0 - 1 - n && (n > 0 ==> width >= 0)
      invariant sink.out == old(sink.out) + Repeat(padc, n)
    {
      sink.Putch(padc);
      width := width - 1;
      n := n + 1;
    }
  }

  /** vprintfmt's %d: the sign goes before the padding. */
  method PrintDecimal(sink: Sink, num: int, width: int, padc: char)
    modifies sink
    ensures sink.out == old(sink.out) + RenderSigned(num, width, padc)
  {
    var n := num;
    hide Render;
    if n < 0 {
      sink.Putch('-');
      n := -n;
    }
    Printnum(sink, n, 10, width, padc);
  }

  function RenderSigned(num: int, width: int, padc: char): string {
    if num < 0 then "-" + Render(-num, 10, width, padc) else Render(num, 10, width, padc)
  }

  // ----- strtol -----

  /** The character at `i` of a string that ends in a NUL. */
  function At(s: string, i: nat): char {
    if i < |s| then s[i] else '\0'
  }

  /** The value of a digit, or -1. */
  function Digit(c: char): int {
    if '0' <= c <= '9' then c as int - '0' as int
    else if 'a' <= c <= 'z' then c as int - 'a' as int + 10
    else if 'A' <= c <= 'Z' then c as int - 'A' as int + 10
    else -1
  }

  predicate IsDigit(c: char, base: int) {
    0 <= Digit(c) < base
  }

  predicate Blank(c: char) {
    c == ' ' || c == '\t'
  }

  function SkipBlanks(s: string, i: nat): (j: nat)
    ensures i <= j && !Blank(At(s, j)) && forall k :: i <= k < j ==> Blank(At(s, k))
    decreases |s| - i
  {
    if Blank(At(s, i)) then SkipBlanks(s, i + 1) else i
  }

  /** The base that strtol uses, and where its digits start, for digits or a prefix at `i`. */
  datatype Start = Start(base: int, at: nat)

  function Prefix(s: string, i: nat, base: int): Start {
    if (base == 0 || base == 16) && At(s, i) == '0' && At(s, i + 1) == 'x' then Start(16, i + 2)
    else if base == 0 && At(s, i) == '0' then Start(8, i + 1)
    else if base == 0 then Start(10, i)
    else Start(base, i)
  }

  datatype Parsed = Parsed(val: int, end: nat)

  /** The digits from `i` on, `val` being the value of those before; a long has 32 bits. */
  function Accumulate(s: string, i: nat, base: int, val: int): Parsed
    decreases |s| - i
  {
    if IsDigit(At(s, i), base) then Accumulate(s, i + 1, base, Int32(val * base + Digit(At(s, i)))) else Parsed(val, i)
  }

  function Parse(s: string, base: int): Parsed {
    var i := SkipBlanks(s, 0);
    var neg := At(s, i) == '-';
    var start := Prefix(s, if neg || At(s, i) == '+' then i + 1 else i, base);
    var p := Accumulate(s, start.at, start.base, 0);
    Parsed(if neg then Int32(-p.val) else p.val, p.end)
  }

  /** strtol; the result and the index that *endptr gets. */
  method Strtol(s: string, base0: int) returns (val: int, end: nat)
    ensures Parsed(val, end) == Parse(s, base0)
  {
    var neg, base := false, base0;
    hide Int32;
    end, val := 0, 0;
    while Blank(At(s, end))
      invariant SkipBlanks(s, end) == SkipBlanks(s, 0)
      decreases |s| - end
    {
      end := end + 1;
    }
    if At(s, end) == '+' {
      end := end + 1;
    } else if At(s, end) == '-' {
      end, neg := end + 1, true;
    }
    if (base == 0 || base == 16) && At(s, end) == '0' && At(s, end + 1) == 'x' {
      end, base := end + 2, 16;
    } else if base == 0 && At(s, end) == '0' {
      end, base := end + 1, 8;
    } else if base == 0 {
      base := 10;
    }
    val, end := ReadDigits(s, end, base);
    val := if neg then Int32(-val) else val;
  }

  /** The loop over the digits. */
  method ReadDigits(s: string, i: nat, base: int) returns (val: int, end: nat)
    ensures Parsed(val, end) == Accumulate(s, i, base, 0)
  {
    val, end := 0, i;
    hide Int32;
    while true
      invariant Accumulate(s, end, base, val) == Accumulate(s, i, base, 0)
      decreases |s| - end
    {
      var dig := Digit(At(s, end));
      if dig < 0 || dig >= base {
        break;
      }
      end, val := end + 1, Int32(val * base + dig);
    }
  }

  // ----- The round trip -----

  /** The number that a string of digits stands for. */
  function Value(s: string, base: nat): nat {
    if s == "" then 0 else Value(s[..|s| - 1], base) * base + if Digit(s[|s| - 1]) >= 0 then Digit(s[|s| - 1]) else 0
  }

  ghost predicate AllDigits(s: string, base: int) {
    forall i :: 0 <= i < |s| ==> IsDigit(s[i], base)
  }

  /** All digits from `i` on: strtol reads them to the end and has their value. */
  lemma {:induction false} ReadsDigits(s: string, i: nat, k: nat, base: nat)
    requires i <= k <= |s| && AllDigits(s[i..], base)
    ensures Accumulate(s, i, base, 0) == Accumulate(s, k, base, Int32(Value(s[i..k], base)))
    decreases k
  {
    if i < k {
      ReadsDigits(s, i, k - 1, base);
      assert s[i..k][..k - 1 - i] == s[i..k - 1] && s[i..k][k - 1 - i] == s[k - 1] == s[i..][k - 1 - i];
      Int32Step(Value(s[i..k - 1], base), base, Digit(s[k - 1]));
    }
  }

  lemma HexDigit(d: nat, base: nat)
    requires d < base <= 16
    ensures Digit(HEX[d]) == d && IsDigit(HEX[d], base)
  {
    assert HEX == ['0', '1', '2', '3', '4', '5', '6', '7', '8', '9', 'a', 'b', 'c', 'd', 'e', 'f'];
  }

  lemma AppendDigit(t: string, c: char, base: nat)
    requires AllDigits(t, base) && IsDigit(c, base)
    ensures AllDigits(t + [c], base) && Value(t + [c], base) == Value(t, base) * base + Digit(c)
  {
    assert (t + [c])[..|t|] == t;
  }

  /** One step of Digits. */
  lemma DigitsStep(num: nat, base: nat) returns (q: nat, d: nat)
    requires 2 <= base <= 16
    ensures num == q * base + d && d < base && (num >= base ==> q < num)
    ensures Digits(num, base) == (if num >= base then Digits(q, base) else "") + [HEX[d]]
    ensures num < base ==> d == num
  {
    q, d := num / base, num % base;
  }

  lemma {:induction false} DigitsValue(num: nat, base: nat)
    requires 2 <= base <= 16
    ensures AllDigits(Digits(num, base), base) && Value(Digits(num, base), base) == num
  {
    assert AllDigits("", base) && Value("", base) == 0;
    hide Digit, Value, AllDigits, IsDigit, Digits;
    var q, d := DigitsStep(num, base);
    HexDigit(d, base);
    if num >= base {
      DigitsValue(q, base);
      AppendDigit(Digits(q, base), HEX[d], base);
    } else {
      AppendDigit("", HEX[d], base);
    }
  }

  /** Zeros before the digits do not change the value. */
  lemma {:induction false} ZerosValue(n: nat, t: string, base: nat)
    ensures Value(Repeat('0', n) + t, base) == Value(t, base)
    decreases n + |t|
  {
    var s := Repeat('0', n) + t;
    if t != "" {
      ZerosValue(n, t[..|t| - 1], base);
      assert s[..|s| - 1] == Repeat('0', n) + t[..|t| - 1];
    } else if n > 0 {
      ZerosValue(n - 1, "", base);
      assert s[..|s| - 1] == Repeat('0', n - 1) + "";
    }
  }

  lemma {:induction false} ZerosAreDigits(n: nat, t: string, base: nat)
    requires base >= 1 && AllDigits(t, base)
    ensures AllDigits(Repeat('0', n) + t, base)
  {
  }

  /** The digits strtol meets: no blank, no sign and no prefix before them. */
  lemma DigitsParse(s: string, i: nat, base: nat)
    requires 2 <= base <= 16 && i < |s| && AllDigits(s[i..], base)
    ensures Prefix(s, i, base) == Start(base, i) && Accumulate(s, i, base, 0) == Parsed(Int32(Value(s[i..], base)), |s|)
  {
    assert s[i..][0] == s[i];
    assert i + 1 < |s| ==> s[i..][1] == s[i + 1];
    ReadsDigits(s, i, |s|, base);
    assert s[i..|s|] == s[i..];
  }

  /** `n` zeros and then the digits of a number, from `i` on, give that number. */
  lemma ZerosParse(s: string, i: nat, n: nat, num: nat, base: nat)
    requires 2 <= base <= 16 && i < |s| && s[i..] == Repeat('0', n) + Digits(num, base)
    ensures IsDigit(s[i], base)
    ensures Prefix(s, i, base) == Start(base, i) && Accumulate(s, i, base, 0) == Parsed(Int32(num), |s|)
  {
    DigitsValue(num, base);
    ZerosAreDigits(n, Digits(num, base), base);
    ZerosValue(n, Digits(num, base), base);
    assert s[i] == s[i..][0];
    DigitsParse(s, i, base);
  }

  lemma DigitIsPlain(c: char, base: int)
    requires IsDigit(c, base)
    ensures !Blank(c) && c != '+' && c != '-'
  {
  }

  /** strtol undoes printnum: for every number, base, width and padding by '0' or ' ', it reads the output to
      its end and returns the number as a long, which is the number itself exactly if that is below 2^31. */
  lemma RoundTrip(num: nat, base: nat, width: int, padc: char)
    requires 2 <= base <= 16 && (padc == '0' || padc == ' ')
    ensures var s := Render(num, base, width, padc);
      Parse(s, base) == Parsed(Int32(num), |s|) && (Parse(s, base).val == num <==> num < 0x8000_0000)
  {
    var s := Render(num, base, width, padc);
    var n: nat := |s| - |Digits(num, base)|;
    var blanks := if padc == ' ' then n else 0;
    assert Repeat('0', 0) + Digits(num, base) == Digits(num, base);
    assert s[blanks..] == Repeat('0', n - blanks) + Digits(num, base);
    ZerosParse(s, blanks, n - blanks, num, base);
    DigitIsPlain(s[blanks], base);
    hide Digits, Repeat, Accumulate, IsDigit, Prefix, Render;
    SkipsPadding(s, 0, blanks);
  }

  lemma {:induction false} SkipsPadding(s: string, i: nat, n: nat)
    requires i <= n < |s| && !Blank(s[n]) && forall k :: i <= k < n ==> Blank(s[k])
    ensures SkipBlanks(s, i) == n
    decreases n - i
  {
    if i < n {
      SkipsPadding(s, i + 1, n);
    }
  }

  lemma ParseSigned(s: string)
    requires |s| > 1 && s[0] == '-'
    ensures var start := Prefix(s, 1, 10);
      var p := Accumulate(s, start.at, start.base, 0);
      Parse(s, 10) == Parsed(Int32(-p.val), p.end)
  {
    assert SkipBlanks(s, 0) == 0;
    hide Prefix, Accumulate, Int32;
  }

  /** A sign and then zeros and the digits of a number. */
  lemma SignedParse(s: string, n: nat, num: nat)
    requires |s| > 1 && s[0] == '-' && s[1..] == Repeat('0', n) + Digits(num, 10) && num <= 0x8000_0000
    ensures Parse(s, 10) == Parsed(0 - num, |s|)
  {
    hide Digits, Repeat, Accumulate, IsDigit, Prefix, SkipBlanks, Int32, Parse;
    NegateTwice(num);
    ParseSigned(s);
    ZerosParse(s, 1, n, num, 10);
  }

  /** A sign and then a blank: strtol stops at the blank. */
  lemma SignedStops(s: string)
    requires |s| > 1 && s[0] == '-' && s[1] == ' '
    ensures Parse(s, 10) == Parsed(0, 1)
  {
    ParseSigned(s);
    assert Prefix(s, 1, 10) == Start(10, 1);
    assert Accumulate(s, 1, 10, 0) == Parsed(0, 1);
  }

  lemma RenderSignedIs(num: int, width: int, padc: char)
    requires num < 0
    ensures var s := RenderSigned(num, width, padc);
      var n := |s| - 1 - |Digits(-num, 10)|;
      && |s| > 1 && s[0] == '-' && s[1..] == Repeat(padc, n) + Digits(-num, 10)
      && n == (if width <= |Digits(-num, 10)| then 0 else width - |Digits(-num, 10)|)
      && (if n > 0 then s[1] == padc else s[1..] == Repeat('0', n) + Digits(-num, 10))
  {
    var s := RenderSigned(num, width, padc);
    assert s[1..] == Render(-num, 10, width, padc);
    assert s[1] == s[1..][0];
    assert Repeat(padc, 0) == Repeat('0', 0);
  }

  /** What %d prints of a negative number comes back exactly if no blank is put between the sign and the digits. */
  lemma SignedRoundTripIff(num: int, width: int, padc: char)
    requires -0x8000_0000 <= num < 0 && (padc == '0' || padc == ' ')
    ensures var s := RenderSigned(num, width, padc);
      Parse(s, 10) == Parsed(num, |s|) <==> padc == '0' || width <= |Digits(-num, 10)|
  {
    hide Digits, Parse, RenderSigned, Render, Repeat;
    RenderSignedIs(num, width, padc);
    var s, len := RenderSigned(num, width, padc), |Digits(-num, 10)|;
    var n: nat := |s| - 1 - len;
    if padc == '0' || width <= len {
      SignedParse(s, n, -num);
    } else {
      SignedStops(s);
    }
  }

  /** Two numbers below 2^31 that print alike are equal. */
  lemma RenderInjective(a: nat, b: nat, base: nat, width: int, width2: int, padc: char, padc2: char)
    requires 2 <= base <= 16 && (padc == '0' || padc == ' ') && (padc2 == '0' || padc2 == ' ')
    requires a < 0x8000_0000 && b < 0x8000_0000 && Render(a, base, width, padc) == Render(b, base, width2, padc2)
    ensures a == b
  {
    RoundTrip(a, base, width, padc);
    RoundTrip(b, base, width2, padc2);
  }

  // ----- Every notation -----

  /** The character for a digit, where the letters begin with `a`. */
  function Letter(d: nat, a: char): char
    requires d < 36 && (a == 'a' || a == 'A')
  {
    if d < 10 then '0' + d as char else a + (d - 10) as char
  }

  /** The number with these digits. */
  function Number(ds: seq<nat>, base: nat): nat {
    if ds == [] then 0 else Number(ds[..|ds| - 1], base) * base + ds[|ds| - 1]
  }

  /** `t` writes these digits, in small or capital letters. */
  ghost predicate Spells(t: string, ds: seq<nat>, base: nat) {
    |t| == |ds| && forall i :: 0 <= i < |ds| ==> ds[i] < base <= 36 && t[i] in {Letter(ds[i], 'a'), Letter(ds[i], 'A')}
  }

  lemma DigitOf(d: nat, a: char)
    requires d < 36 && (a == 'a' || a == 'A')
    ensures Digit(Letter(d, a)) == d
  {
  }

  lemma {:induction false} SpellsValue(t: string, ds: seq<nat>, base: nat)
    requires Spells(t, ds, base)
    ensures |t| == |ds| && AllDigits(t, base) && Value(t, base) == Number(ds, base)
  {
    if t != "" {
      SpellsValue(t[..|t| - 1], ds[..|ds| - 1], base);
      DigitOf(ds[|ds| - 1], 'a');
      DigitOf(ds[|ds| - 1], 'A');
      assert t == t[..|t| - 1] + [t[|t| - 1]];
    }
  }

  /** What a number may be written with: the prefix that announces its base, for a reader who is given base `base0`. */
  ghost predicate Announces(pre: string, t: string, base: nat, base0: int) {
    || (pre == "0x" && base == 16 && (base0 == 0 || base0 == 16))
    || (pre == "0" && base == 8 && base0 == 0)
    || (pre == "" && base == 10 && base0 == 0 && t != "" && t[0] != '0')
    || (pre == "" && base == base0)
  }

  /** strtol reads every number that is written with blanks and tabs, a sign, a prefix and digits in letters of
      either size, to its end, in every base up to 36; an unsigned number and one with '+' are the same. */
  lemma ReadsNotation(blanks: string, sign: string, pre: string, t: string, ds: seq<nat>, base: nat, base0: int)
    requires 2 <= base <= 36 && ds != [] && Spells(t, ds, base) && Announces(pre, t, base, base0)
    requires (forall k :: 0 <= k < |blanks| ==> blanks[k] == ' ' || blanks[k] == '\t')
    requires sign == "" || sign == "+" || sign == "-"
    ensures var s := blanks + sign + pre + t;
      Parse(s, base0) == Parsed(Int32(if sign == "-" then 0 - Number(ds, base) else Number(ds, base)), |s|)
  {
    hide Digit, Value, Number, Letter, Parse, Prefix, Accumulate, Int32, SkipBlanks, Blank;
    hide Announces, Spells, AllDigits;
    var s := blanks + sign + pre + t;
    var i, at := |blanks + sign|, |blanks + sign + pre|;
    SpellsValue(t, ds, base);
    DigitsFollow(s, blanks + sign + pre, t, base);
    SignFollows(s, blanks, sign, pre, t, base, base0);
    PrefixIs(s, i, pre, t, base, base0);
    ReadsDigits(s, at, |s|, base);
    assert s[at..|s|] == t;
    AtEnd(s, base, Int32(Number(ds, base)));
    NegatedWraps(Number(ds, base));
    ParseIs(s, |blanks|, i, base0, sign);
  }

  lemma NegatedWraps(n: int)
    ensures Int32(-Int32(n)) == Int32(0 - n)
  {
    Int32Step(n, -1, 0);
    assert Int32(n) * -1 + 0 == -Int32(n) && n * -1 + 0 == 0 - n;
  }

  /** The digits are the end of the string. */
  lemma DigitsFollow(s: string, front: string, t: string, base: nat)
    requires s == front + t && AllDigits(t, base)
    ensures s[|front|..] == t && AllDigits(s[|front|..], base)
  {
  }

  /** The blanks are skipped, up to the sign; after the sign comes the prefix. */
  lemma SignFollows(s: string, blanks: string, sign: string, pre: string, t: string, base: nat, base0: int)
    requires s == blanks + sign + pre + t && t != "" && AllDigits(t, base) && Announces(pre, t, base, base0)
    requires sign == "" || sign == "+" || sign == "-"
    requires forall k :: 0 <= k < |blanks| ==> blanks[k] == ' ' || blanks[k] == '\t'
    ensures |blanks| < |s| && SkipBlanks(s, 0) == |blanks| && s[|blanks + sign|..] == pre + t
    ensures s[|blanks|] == '-' <==> sign == "-"
    ensures s[|blanks|] == '+' <==> sign == "+"
  {
    hide SkipBlanks;
    DigitIsPlain(t[0], base);
    FirstPlain(s, blanks, sign, pre, t);
    SkipsPadding(s, 0, |blanks|);
  }

  lemma AtEnd(s: string, base: nat, val: int)
    ensures Accumulate(s, |s|, base, val) == Parsed(val, |s|)
  {
  }

  /** What stands at the end of the blanks, and after the sign. */
  lemma FirstPlain(s: string, blanks: string, sign: string, pre: string, t: string)
    requires s == blanks + sign + pre + t && t != "" && !Blank(t[0]) && t[0] != '+' && t[0] != '-'
    requires sign == "" || sign == "+" || sign == "-"
    requires pre == "" || pre == "0" || pre == "0x"
    requires forall k :: 0 <= k < |blanks| ==> blanks[k] == ' ' || blanks[k] == '\t'
    ensures |blanks| < |s| && !Blank(s[|blanks|]) && forall k :: 0 <= k < |blanks| ==> Blank(s[k])
    ensures s[|blanks|] == '-' <==> sign == "-"
    ensures s[|blanks|] == '+' <==> sign == "+"
  {
    var rest := sign + pre + t;
    assert s == blanks + rest && s[|blanks|] == rest[0];
    assert rest[0] == if sign != "" then sign[0] else if pre != "" then pre[0] else t[0];
  }

  lemma PrefixIs(s: string, i: nat, pre: string, t: string, base: nat, base0: int)
    requires 2 <= base <= 36 && i <= |s| && s[i..] == pre + t && t != "" && AllDigits(t, base)
    requires Announces(pre, t, base, base0)
    ensures Prefix(s, i, base0) == Start(base, i + |pre|)
  {
    assert s[i] == s[i..][0] == (pre + t)[0];
    assert i + 1 < |s| ==> s[i + 1] == s[i..][1] == (pre + t)[1];
    assert pre == "" && base == 16 && |t| > 1 ==> IsDigit(t[1], base);
  }

  lemma ParseIs(s: string, b: nat, i: nat, base0: int, sign: string)
    requires b < |s| && SkipBlanks(s, 0) == b && i == b + |sign|
    requires (s[b] == '-' <==> sign == "-") && (s[b] == '+' <==> sign == "+")
    requires sign == "" || sign == "+" || sign == "-"
    ensures var start := Prefix(s, i, base0);
      var p := Accumulate(s, start.at, start.base, 0);
      Parse(s, base0) == Parsed(if sign == "-" then Int32(-p.val) else p.val, p.end)
  {
    hide Prefix, Accumulate, Int32;
  }
}
