/** Decoding the data part of a Bech32 string (BIP 173): five-bit symbols
    regrouped into bytes through a wrapping 32-bit accumulator. */
module Bech32 {
  import opened Bits
  import opened Bytes
  import opened Division

  const CHARSET: string := "qpzry9x8gf2tvdw0s3jn54khce6mua7l"
  const WRAP: nat := 0x1_0000_0000

  type symbol = x: int | 0 <= x < 32

  // ---- Bit strings as numbers ----

  /** The bits of symbols, five each, as one number. */
  function Value5(syms: seq<symbol>): (v: nat)
  {
    if syms == [] then 0 else Value5(syms[..|syms| - 1]) * 32 + syms[|syms| - 1]
  }

  /** The bits of bytes, eight each, as one number. */
  function Value8(d: seq<byte>): (v: nat)
  {
    if d == [] then 0 else Value8(d[..|d| - 1]) * 256 + d[|d| - 1]
  }

  /** The symbols are the bytes' bits with fewer than five zero bits after. */
  ghost predicate Regrouped(syms: seq<symbol>, d: seq<byte>)
  {
    var pad := 5 * |syms| - 8 * |d|;
    0 <= pad < 5 && Value5(syms) == Value8(d) * Pow2(pad)
  }

  lemma {:induction false} Value8Injective(a: seq<byte>, b: seq<byte>)
    requires |a| == |b| && Value8(a) == Value8(b)
    ensures a == b
  {
    if a != [] {
      var n := |a| - 1;
      Value8Injective(a[..n], b[..n]);
      assert a == a[..n] + [a[n]] && b == b[..n] + [b[n]];
    }
  }

  lemma {:induction false} Value5Injective(a: seq<symbol>, b: seq<symbol>)
    requires |a| == |b| && Value5(a) == Value5(b)
    ensures a == b
  {
    if a != [] {
      var n := |a| - 1;
      Value5Injective(a[..n], b[..n]);
      assert a == a[..n] + [a[n]] && b == b[..n] + [b[n]];
    }
  }

  /** The bytes and the symbols of a regrouping determine each other. */
  lemma RegroupedOneToOne(s: seq<symbol>, t: seq<symbol>, d: seq<byte>, e: seq<byte>)
    requires Regrouped(s, d) && Regrouped(t, e)
    ensures s == t <==> d == e
  {
    hide Value5, Value8;
    if s == t {
      assert |d| == |e|;
      Cancel(Value8(d), Value8(e), Pow2(5 * |s| - 8 * |d|));
      Value8Injective(d, e);
    } else if d == e {
      assert |s| == |t|;
      Value5Injective(s, t);
    }
  }

  lemma Cancel(a: nat, b: nat, p: nat)
    requires p > 0 && a * p == b * p
    ensures a == b
  {
    MulAtLeast(b - a, p);
    MulAtLeast(a - b, p);
    assert (b - a) * p == b * p - a * p && (a - b) * p == a * p - b * p;
  }

  // ---- The encoder BIP 173 describes ----

  function Digits(v: nat, n: nat): (s: seq<symbol>)
    ensures |s| == n
  {
    if n == 0 then [] else Digits(v / 32, n - 1) + [v % 32]
  }

  lemma {:induction false} DigitsValue(v: nat, n: nat)
    requires v < Pow2(5 * n)
    ensures Value5(Digits(v, n)) == v
  {
    if n > 0 {
      Thirty2(n);
      DigitsValue(v / 32, n - 1);
      assert Digits(v, n)[..n - 1] == Digits(v / 32, n - 1);
    }
  }

  lemma Thirty2(n: nat)
    requires n > 0
    ensures Pow2(5 * n) == 32 * Pow2(5 * (n - 1))
  {
    hide Pow2;
    var m := 5 * (n - 1);
    Pow2Next(m);
    Pow2Next(m + 1);
    Pow2Next(m + 2);
    Pow2Next(m + 3);
    Pow2Next(m + 4);
  }

  lemma Pow2Next(m: nat)
    ensures Pow2(m + 1) == 2 * Pow2(m)
  {
  }

  lemma Eighth(m: nat)
    ensures Pow2(m + 8) == 256 * Pow2(m)
  {
    hide Pow2;
    Pow2Next(m);
    Pow2Next(m + 1);
    Pow2Next(m + 2);
    Pow2Next(m + 3);
    Pow2Next(m + 4);
    Pow2Next(m + 5);
    Pow2Next(m + 6);
    Pow2Next(m + 7);
  }

  lemma {:induction false} Value8Small(d: seq<byte>)
    ensures Value8(d) < Pow2(8 * |d|)
  {
    if d != [] {
      Value8Small(d[..|d| - 1]);
      Eighth(8 * (|d| - 1));
    }
  }

  /** The bytes' bits in groups of five, the last filled with zeros. */
  function Encode(d: seq<byte>): (s: seq<symbol>)
  {
    var n := (8 * |d| + 4) / 5;
    Digits(Value8(d) * Pow2(5 * n - 8 * |d|), n)
  }

  lemma EncodeRegroups(d: seq<byte>)
    ensures Regrouped(Encode(d), d)
  {
    hide Value8, Pow2, Value5, Digits;
    var n := (8 * |d| + 4) / 5;
    var pad := 5 * n - 8 * |d|;
    Value8Small(d);
    Shift(Value8(d), 8 * |d|, pad);
    DigitsValue(Value8(d) * Pow2(pad), n);
  }

  lemma {:induction false} Shift(v: nat, m: nat, pad: nat)
    requires v < Pow2(m)
    ensures v * Pow2(pad) < Pow2(m + pad)
  {
    if pad > 0 {
      Shift(v, m, pad - 1);
      Twice(v, Pow2(pad - 1));
    }
  }

  // ---- The decoder ----

  /** x << 5 | v on 32 bits is x * 32 + v, wrapped. */
  lemma ShiftOr(x: nat, v: symbol)
    ensures Or((x * 32) % WRAP, v) == (x * 32 + v) % WRAP
  {
    var m := x % 0x800_0000;
    assert (x * 32) % WRAP == 32 * m && (x * 32 + v) % WRAP == 32 * m + v;
    OrLow(m, v);
  }

  lemma OrLow(m: nat, v: symbol)
    ensures Or(32 * m, v) == 32 * m + v
  {
    hide Or;
    OrHalf(16 * m, v);
    OrHalf(8 * m, v / 2);
    OrHalf(4 * m, v / 4);
    OrHalf(2 * m, v / 8);
    OrHalf(m, v / 16);
    assert v / 2 / 2 == v / 4 && v / 4 / 2 == v / 8 && v / 8 / 2 == v / 16 && v / 16 / 2 == 0;
    OrZero(m);
  }

  lemma OrZero(a: nat)
    ensures Or(a, 0) == a && Or(0, a) == a
  {
  }

  lemma OrHalf(a: nat, v: nat)
    ensures Or(2 * a, v) == 2 * Or(a, v / 2) + v % 2
  {
    if a == 0 || v == 0 {
      assert Or(0, v / 2) == v / 2;
    }
  }

  /** x & (1 << b - 1) is the remainder by 1 << b. */
  lemma {:induction false} MaskIsRemainder(x: nat, b: nat)
    ensures And(x, Pow2(b) - 1) == x % Pow2(b)
  {
    hide And;
    if b == 0 {
      AndZero(x);
    } else {
      var p := Pow2(b - 1);
      MaskIsRemainder(x / 2, b - 1);
      AndHalf(x, p - 1);
      HalfRemainder(x, p);
    }
  }

  lemma AndZero(x: nat)
    ensures And(x, 0) == 0
  {
  }

  lemma AndHalf(x: nat, y: nat)
    ensures And(x, 2 * y + 1) == 2 * And(x / 2, y) + x % 2
  {
  }

  lemma HalfRemainder(x: nat, p: nat)
    requires p > 0
    ensures x % (2 * p) == 2 * ((x / 2) % p) + x % 2
  {
    var q, r := (x / 2) / p, (x / 2) % p;
    assert x == 2 * (q * p + r) + x % 2;
    assert x == q * (2 * p) + (2 * r + x % 2);
    DivUnique(x, 2 * p, q, 2 * r + x % 2);
  }

  /** What the loop has after some symbols: all bits seen are the bytes out and
      `bits` bits r below them; the accumulator keeps them modulo 2^32. */
  ghost predicate Midway(syms: seq<symbol>, out: seq<byte>, bits: nat, acc: nat, r: nat)
  {
    && bits < 8 && 5 * |syms| == 8 * |out| + bits && r < Pow2(bits)
    && Value5(syms) == Value8(out) * Pow2(bits) + r && acc == Value5(syms) % WRAP
  }

  lemma Powers()
    ensures Pow2(0) == 1 && Pow2(1) == 2 && Pow2(2) == 4 && Pow2(3) == 8 && Pow2(4) == 16 && Pow2(5) == 32
    ensures Pow2(6) == 64 && Pow2(7) == 128 && Pow2(8) == 256
  {
    assert Pow2(3) == 8;
    assert Pow2(6) == 64;
  }

  /** The accumulator's low bits are the value's. */
  lemma WrapRemainder(v: nat, p: nat, m: nat)
    requires p > 0 && 256 * m * p == WRAP
    ensures (v % WRAP) % p == v % p && (v % WRAP) / p % 256 == v / p % 256
  {
    var q, a := v / WRAP, v % WRAP;
    var k := q * m;
    Regroup(q, m, p, a);
    SameLow(v, a, p, k);
  }

  lemma SameLow(v: nat, a: nat, p: nat, k: nat)
    requires p > 0 && a / p >= 0 && v == (k * 256 + a / p) * p + a % p
    ensures a % p == v % p && a / p % 256 == v / p % 256
  {
    var x, y := a / p, a % p;
    DivUnique(v, p, k * 256 + x, y);
    LowByte(k, x);
  }

  lemma LowByte(k: int, x: int)
    ensures (k * 256 + x) % 256 == x % 256
  {
  }

  lemma Regroup(q: nat, m: nat, p: nat, a: nat)
    requires p > 0
    ensures q * (256 * m * p) + a == ((q * m) * 256 + a / p) * p + a % p && a % p < p && a / p >= 0
  {
    assert q * (256 * m * p) == q * m * 256 * p;
    assert a == a / p * p + a % p;
  }

  lemma SmallPower(b: nat) returns (m: nat)
    requires b < 8
    ensures 256 * m * Pow2(b) == WRAP
  {
    hide Pow2;
    Powers();
    m := if b == 0 then 0x100_0000 else if b == 1 then 0x80_0000 else if b == 2 then 0x40_0000 else if b == 3 then 0x20_0000
         else if b == 4 then 0x10_0000 else if b == 5 then 0x8_0000 else if b == 6 then 0x4_0000 else 0x2_0000;
  }

  /** One more symbol. */
  lemma Step(syms: seq<symbol>, out: seq<byte>, bits: nat, acc: nat, r: nat, v: symbol)
    requires Midway(syms, out, bits, acc, r)
    ensures var acc' := (acc * 32 + v) % WRAP;
            if bits + 5 >= 8 then
              Midway(syms + [v], out + [acc' / Pow2(bits - 3) % 256], bits - 3, acc', (r * 32 + v) % Pow2(bits - 3))
            else Midway(syms + [v], out, bits + 5, acc', r * 32 + v)
  {
    hide Midway;
    if bits + 5 >= 8 {
      StepOut(syms, out, bits, acc, r, v);
    } else {
      StepOn(syms, out, bits, acc, r, v);
    }
  }

  lemma AccStep(value: nat, acc: nat, v: symbol)
    requires acc == value % WRAP
    ensures (acc * 32 + v) % WRAP == (value * 32 + v) % WRAP
  {
  }

  lemma StepOn(syms: seq<symbol>, out: seq<byte>, bits: nat, acc: nat, r: nat, v: symbol)
    requires Midway(syms, out, bits, acc, r) && bits < 3
    ensures Midway(syms + [v], out, bits + 5, (acc * 32 + v) % WRAP, r * 32 + v)
  {
    hide Value5, Value8, Pow2;
    Powers();
    SnocValues(syms, v, out, 0);
    AccStep(Value5(syms), acc, v);
    assert Pow2(bits + 5) == 32 * Pow2(bits);
    Scale(Value8(out), Pow2(bits), r, v);
  }

  lemma Scale(w: nat, p: nat, r: nat, v: nat)
    ensures (w * p + r) * 32 + v == w * (32 * p) + (r * 32 + v)
  {
  }

  lemma StepOut(syms: seq<symbol>, out: seq<byte>, bits: nat, acc: nat, r: nat, v: symbol)
    requires Midway(syms, out, bits, acc, r) && bits >= 3
    ensures var acc', p := (acc * 32 + v) % WRAP, Pow2(bits - 3);
            Midway(syms + [v], out + [acc' / p % 256], bits - 3, acc', (r * 32 + v) % p)
  {
    hide Value5, Value8, Pow2;
    var value, p := Value5(syms) * 32 + v, Pow2(bits - 3);
    AccStep(Value5(syms), acc, v);
    var m := SmallPower(bits - 3);
    WrapRemainder(value, p, m);
    Emitted(Value8(out), bits, r, v);
    Byte(value / p);
    SnocValues(syms, v, out, value / p % 256);
  }

  lemma Byte(x: int)
    ensures 0 <= x % 256 < 256
  {
  }

  lemma SnocValues(syms: seq<symbol>, v: symbol, out: seq<byte>, b: byte)
    ensures Value5(syms + [v]) == Value5(syms) * 32 + v && Value8(out + [b]) == Value8(out) * 256 + b
  {
    assert (syms + [v])[..|syms|] == syms && (out + [b])[..|out|] == out;
  }

  /** The byte taken off the top, and what stays below it. */
  lemma Emitted(w: nat, bits: nat, r: nat, v: symbol)
    requires 3 <= bits < 8 && r < Pow2(bits)
    ensures var p, value := Pow2(bits - 3), (w * Pow2(bits) + r) * 32 + v;
            value == (w * 256 + value / p % 256) * p + (r * 32 + v) % p
  {
    hide Pow2;
    Powers();
    var p, low := Pow2(bits - 3), r * 32 + v;
    assert Pow2(bits) == 8 * p;
    TopByte(w, p, r, v, low / p, low % p);
  }

  lemma TopByte(w: nat, p: nat, r: nat, v: nat, hi: int, lo: nat)
    requires p > 0 && r * 32 + v == hi * p + lo && lo < p && r * 32 + v < 256 * p && hi >= 0
    ensures var value := (w * (8 * p) + r) * 32 + v; value == (w * 256 + value / p % 256) * p + lo
  {
    Below(hi, p, hi * p + lo);
    TopAndRest(w, p, r, v, hi, lo);
    DivUnique((w * (8 * p) + r) * 32 + v, p, w * 256 + hi, lo);
    LowByte(w, hi);
  }

  lemma TopAndRest(w: nat, p: nat, r: nat, v: nat, hi: int, lo: nat)
    requires r * 32 + v == hi * p + lo
    ensures (w * (8 * p) + r) * 32 + v == (w * 256 + hi) * p + lo
  {
    assert w * (8 * p) * 32 == w * 256 * p && (w * 256 + hi) * p == w * 256 * p + hi * p;
  }

  lemma Below(hi: nat, p: nat, low: nat)
    requires p > 0 && hi * p <= low < 256 * p
    ensures hi < 256
  {
    MulAtLeast(hi - 255, p);
    assert (hi - 255) * p == hi * p - 255 * p;
  }

  /** The loop's end: no more than four bits are left and they are zero exactly
      when the symbols regroup some bytes, and then these are the bytes. */
  lemma Finish(syms: seq<symbol>, out: seq<byte>, bits: nat, acc: nat, r: nat, d: seq<byte>)
    requires Midway(syms, out, bits, acc, r)
    ensures Regrouped(syms, d) <==> bits < 5 && acc % Pow2(bits) == 0 && d == out
  {
    hide Value5, Value8, Pow2;
    var p, w := Pow2(bits), Value8(out);
    var m := SmallPower(bits);
    WrapRemainder(Value5(syms), p, m);
    DivUnique(Value5(syms), p, w, r);
    assert acc % p == r;
    if Regrouped(syms, d) {
      assert |d| == |out|;
      DivUnique(Value5(syms), p, Value8(d), 0);
      Value8Injective(d, out);
    }
  }

  // ---- The string ----

  function LowerChar(c: char): char
  {
    if 'A' <= c <= 'Z' then (c as int + 32) as char else c
  }

  function Lower(s: string): (t: string)
    ensures |t| == |s|
  {
    seq(|s|, i requires 0 <= i < |s| => LowerChar(s[i]))
  }

  /** Where c first is in s, or -1. */
  function IndexOf(s: string, c: char): (i: int)
    ensures -1 <= i < |s| && (i == -1 <==> c !in s) && (i >= 0 ==> s[i] == c)
  {
    if s == [] then -1 else if s[0] == c then 0
    else if IndexOf(s[1..], c) < 0 then -1 else 1 + IndexOf(s[1..], c)
  }

  /** Where c last is in s, or -1. */
  function LastIndexOf(s: string, c: char): (i: int)
    ensures -1 <= i < |s| && (i >= 0 ==> s[i] == c) && forall k :: i < k < |s| ==> s[k] != c
  {
    if s == [] then -1 else if s[|s| - 1] == c then |s| - 1 else LastIndexOf(s[..|s| - 1], c)
  }

  ghost predicate InCharset(cs: string)
  {
    forall i :: 0 <= i < |cs| ==> cs[i] in CHARSET
  }

  ghost function Symbols(cs: string): (syms: seq<symbol>)
    requires InCharset(cs)
    ensures |syms| == |cs|
  {
    seq(|cs|, i requires 0 <= i < |cs| => SymbolOf(cs[i]))
  }

  ghost function SymbolOf(c: char): symbol
    requires c in CHARSET
  {
    Charset();
    IndexOf(CHARSET, c)
  }

  lemma Charset()
    ensures |CHARSET| == 32 && '1' !in CHARSET
  {
  }

  datatype Error = Separator | Character | Padding
  datatype Result = Ok(hrp: string, data: seq<byte>) | Err(error: Error)

  /** The string is a human-readable part, a separator, data symbols and a
      checksum of six characters, and the symbols regroup the bytes. */
  ghost predicate Means(s: string, hrp: string, data: seq<byte>)
  {
    var low, sep := Lower(s), LastIndexOf(Lower(s), '1');
    && 1 <= sep && sep + 7 <= |low| && hrp == low[..sep]
    && InCharset(low[sep + 1..|low| - 6])
    && Regrouped(Symbols(low[sep + 1..|low| - 6]), data)
  }

  /** Regroups the data characters. */
  method Regroup5To8(symbols: string) returns (r: Result)
    ensures r.Ok? ==> r.hrp == []
    ensures r == Err(Character) <==> !InCharset(symbols)
    ensures r != Err(Separator)
    ensures forall data :: r == Ok([], data) <==> InCharset(symbols) && Regrouped(Symbols(symbols), data)
  {
    hide IndexOf, Pow2, Midway, Regrouped, And, Or;
    var acc: nat, bits: nat := 0, 0;
    var out: seq<byte> := [];
    ghost var left: nat, seen: seq<symbol> := 0, [];
    Begins();
    Charset();
    for i := 0 to |symbols|
      invariant InCharset(symbols[..i]) && seen == Symbols(symbols[..i]) && Midway(seen, out, bits, acc, left)
    {
      var v := IndexOf(CHARSET, symbols[i]);
      assert symbols[..i + 1] == symbols[..i] + [symbols[i]];
      if v < 0 {
        assert !InCharset(symbols);
        return Err(Character);
      }
      OneMore(symbols, i);
      FewBits(seen, out, bits, acc, left);
      Step(seen, out, bits, acc, left, v);
      ShiftOr(acc, v);
      acc := Or((acc * 32) % WRAP, v);
      bits := bits + 5;
      left := left * 32 + v;
      if bits >= 8 {
        bits := bits - 8;
        left := left % Pow2(bits);
        out := out + [acc / Pow2(bits) % 256];
      }
      seen := seen + [v];
    }
    assert symbols[..|symbols|] == symbols;
    MaskIsRemainder(acc, bits);
    forall d: seq<byte> ensures Regrouped(seen, d) <==> bits < 5 && acc % Pow2(bits) == 0 && d == out {
      Finish(seen, out, bits, acc, left, d);
    }
    if bits >= 5 || And(acc, Pow2(bits) - 1) != 0 {
      return Err(Padding);
    }
    return Ok([], out);
  }

  lemma OneMore(cs: string, i: nat)
    requires i < |cs| && InCharset(cs[..i]) && cs[i] in CHARSET
    ensures InCharset(cs[..i + 1]) && Symbols(cs[..i + 1]) == Symbols(cs[..i]) + [SymbolOf(cs[i])]
  {
    hide IndexOf;
    assert cs[..i + 1] == cs[..i] + [cs[i]];
  }

  /** Decodes a string whose checksum was already verified. */
  method Bech32Data(s: string) returns (r: Result)
    ensures forall hrp, data :: r == Ok(hrp, data) <==> Means(s, hrp, data)
    ensures r == Err(Separator) <==> var sep := LastIndexOf(Lower(s), '1'); sep < 1 || sep + 7 > |s|
    ensures r == Err(Character) <==>
              var sep := LastIndexOf(Lower(s), '1');
              1 <= sep && sep + 7 <= |s| && !InCharset(Lower(s)[sep + 1..|s| - 6])
  {
    hide Lower, LastIndexOf, Regrouped, InCharset, Symbols;
    var lower := Lower(s);
    var sep := LastIndexOf(lower, '1');
    if sep < 1 || sep + 7 > |lower| {
      return Err(Separator);
    }
    r := Regroup5To8(lower[sep + 1..|lower| - 6]);
    if r.Ok? {
      r := Ok(lower[..sep], r.data);
    }
  }

  lemma Begins()
    ensures Midway([], [], 0, 0, 0)
  {
  }

  lemma FewBits(syms: seq<symbol>, out: seq<byte>, bits: nat, acc: nat, r: nat)
    requires Midway(syms, out, bits, acc, r)
    ensures bits < 8
  {
  }

  /** The same text but for the case of its ASCII letters; `t` has none in
      upper case. */
  ghost predicate SameText(s: string, t: string)
  {
    |s| == |t| && forall i :: 0 <= i < |s| ==> !('A' <= t[i] <= 'Z') && (s[i] == t[i] || UpperOf(s[i], t[i]))
  }

  ghost predicate UpperOf(c: char, d: char)
  {
    'A' <= c <= 'Z' && 'a' <= d <= 'z' && c - 'A' == d - 'a'
  }

  lemma LowerIs(s: string, t: string)
    requires SameText(s, t)
    ensures Lower(s) == t
  {
    forall i | 0 <= i < |s| ensures Lower(s)[i] == t[i] {
    }
  }

  /** Decoding inverts encoding: a string that holds the regrouping of data,
      in either case, means that data. */
  lemma RoundTrip(s: string, hrp: string, body: string, check: string, data: seq<byte>)
    requires hrp != [] && |check| == 6 && '1' !in check && SameText(s, hrp + ['1'] + body + check)
    requires InCharset(body) && Symbols(body) == Encode(data)
    ensures Means(s, hrp, data)
  {
    hide Encode, Regrouped, IndexOf, LastIndexOf, Lower, Symbols, InCharset, SameText;
    var low := Lower(s);
    LowerIs(s, hrp + ['1'] + body + check);
    NoOne(body);
    assert low == hrp + ['1'] + (body + check);
    LastOne(low, hrp, body + check);
    assert low[|hrp| + 1..|low| - 6] == body && low[..|hrp|] == hrp;
    EncodeRegroups(data);
  }

  lemma NoOne(body: string)
    requires InCharset(body)
    ensures '1' !in body
  {
    Charset();
  }

  lemma LastOne(low: string, hrp: string, tail: string)
    requires low == hrp + ['1'] + tail && '1' !in tail
    ensures LastIndexOf(low, '1') == |hrp|
  {
    hide LastIndexOf;
    assert low[|hrp|] == '1';
    assert forall k :: |hrp| < k < |low| ==> low[k] == tail[k - |hrp| - 1];
  }

  /** Decoding is injective: strings that mean the same have the same data
      characters. */
  lemma SameMeaning(s: string, t: string, hrp: string, data: seq<byte>)
    requires Means(s, hrp, data) && Means(t, hrp, data)
    ensures Lower(s)[..|s| - 6] == Lower(t)[..|t| - 6]
  {
    hide Regrouped, Means, InCharset, Symbols, SymbolOf;
    var x := Parts(s, hrp, data);
    var y := Parts(t, hrp, data);
    RegroupedOneToOne(Symbols(x), Symbols(y), data, data);
    SameSymbols(x, y);
  }

  /** The data characters of a string with a meaning. */
  lemma Parts(s: string, hrp: string, data: seq<byte>) returns (x: string)
    requires Means(s, hrp, data)
    ensures |s| >= 6 && Lower(s)[..|s| - 6] == hrp + ['1'] + x
    ensures InCharset(x) && Regrouped(Symbols(x), data)
  {
    hide Regrouped, InCharset, Symbols, SymbolOf;
    var a := Lower(s);
    x := a[|hrp| + 1..|a| - 6];
    assert a[..|a| - 6] == a[..|hrp|] + [a[|hrp|]] + x;
  }

  lemma SameSymbols(x: string, y: string)
    requires InCharset(x) && InCharset(y) && Symbols(x) == Symbols(y)
    ensures x == y
  {
    assert |x| == |y|;
    forall i | 0 <= i < |x| ensures x[i] == y[i] {
      assert Symbols(x)[i] == Symbols(y)[i];
      assert CHARSET[SymbolOf(x[i])] == x[i] && CHARSET[SymbolOf(y[i])] == y[i];
    }
  }
}
