/**
 The base32 decoder of the unlock code's secret, against the alphabet and the bit order of
 section 6 of RFC 4648.

 The decoder shifts five bits at a time into a 64-bit word that silently loses its oldest
 bits; the reference decodes the whole bit string at once.
 */
module Base32 {
  import opened Options
  import opened Strings

  type Byte = x: int | 0 <= x < 256
  type Quintet = x: int | 0 <= x < 32

  const WORD := 0x1_0000_0000_0000_0000

  // ---- Characters ----

  predicate Ignorable(c: char) {
    c == '=' || IsSpace(c) || c == '-'
  }

  function Upper(c: char): char {
    if 'a' <= c <= 'z' then (c as int - 32) as char else c
  }

  function Digit(c: char): Option<Quintet> {
    if 'A' <= c <= 'Z' then Some(c as int - 'A' as int)
    else if '2' <= c <= '7' then Some(c as int - '2' as int + 26)
    else None
  }

  /** The alphabet: A to Z, then 2 to 7. */
  function Letter(v: Quintet): char {
    if v < 26 then ('A' as int + v) as char else ('2' as int + v - 26) as char
  }

  // ---- Bits, most significant first ----

  function Pow2(n: nat): (p: nat)
    ensures p > 0
  {
    if n == 0 then 1 else 2 * Pow2(n - 1)
  }

  function Bit(b: bool): nat {
    if b then 1 else 0
  }

  function Num(bits: seq<bool>): nat {
    if bits == [] then 0 else 2 * Num(bits[..|bits| - 1]) + Bit(bits[|bits| - 1])
  }

  function Bits(x: nat, width: nat): (bits: seq<bool>)
    ensures |bits| == width
  {
    if width == 0 then [] else Bits(x / 2, width - 1) + [x % 2 == 1]
  }

  function Zeros(n: nat): seq<bool> {
    seq(n, _ => false)
  }

  /** All the bits of a sequence of numbers, `width` bits each. */
  function AllBits(xs: seq<nat>, width: nat): seq<bool> {
    if xs == [] then [] else AllBits(xs[..|xs| - 1], width) + Bits(xs[|xs| - 1], width)
  }

  /** The whole octets at the front of a bit string; the rest is dropped. */
  function Octets(bits: seq<bool>): seq<nat> {
    if |bits| < 8 then [] else [Num(bits[..8])] + Octets(bits[8..])
  }

  lemma {:induction false} NumBound(bits: seq<bool>)
    ensures Num(bits) < Pow2(|bits|)
  {
    if bits == [] {
    } else {
      NumBound(bits[..|bits| - 1]);
    }
  }

  function Five(bits: seq<bool>): Quintet
    requires |bits| == 5
  {
    NumBound(bits);
    assert Pow2(5) == 32;
    Num(bits)
  }

  /** A bit string in fives, the last group filled up with zero bits. */
  function Quintets(bits: seq<bool>): seq<Quintet> {
    if bits == [] then []
    else if |bits| < 5 then [Five(bits + Zeros(5 - |bits|))]
    else [Five(bits[..5])] + Quintets(bits[5..])
  }

  // ---- The reference decoder and the encoder ----

  /** The five-bit values a text spells, ignorable characters skipped; `None` on any other. */
  function Values(s: string): Option<seq<Quintet>> {
    if s == "" then Some([])
    else
      var c := Upper(s[|s| - 1]);
      match Values(s[..|s| - 1])
      case None => None
      case Some(vs) =>
        if Ignorable(c) then Some(vs)
        else if Digit(c).None? then None
        else Some(vs + [Digit(c).value])
  }

  function Decoded(s: string): Option<seq<nat>> {
    match Values(s)
    case None => None
    case Some(vs) => Some(Octets(AllBits(vs, 5)))
  }

  function Spell(vs: seq<Quintet>): string {
    seq(|vs|, i requires 0 <= i < |vs| => Letter(vs[i]))
  }

  /** How many '=' fill up the last block of eight characters. */
  function Padding(chars: nat): nat {
    (8 - chars % 8) % 8
  }

  function Encode(bytes: seq<Byte>): string {
    var text := Spell(Quintets(AllBits(bytes, 8)));
    text + seq(Padding(|text|), _ => '=')
  }

  // ---- Facts about bits ----

  lemma {:induction false} NumOfBits(x: nat, width: nat)
    requires x < Pow2(width)
    ensures Num(Bits(x, width)) == x
  {
    if width > 0 {
      NumOfBits(x / 2, width - 1);
      var bits := Bits(x, width);
      assert bits[..width - 1] == Bits(x / 2, width - 1) && bits[width - 1] == (x % 2 == 1);
      assert x == 2 * (x / 2) + x % 2;
    }
  }

  lemma {:induction false} BitsOfNum(bits: seq<bool>)
    ensures Bits(Num(bits), |bits|) == bits
  {
    if bits == [] {
    } else {
      BitsOfNum(bits[..|bits| - 1]);
    }
  }

  lemma {:induction false} NumConcat(a: seq<bool>, b: seq<bool>)
    ensures Num(a + b) == Num(a) * Pow2(|b|) + Num(b)
  {
    if b == [] {
      assert a + b == a;
    } else {
      var b' := b[..|b| - 1];
      NumConcat(a, b');
      assert (a + b)[..|a + b| - 1] == a + b';
      assert Num(a) * (2 * Pow2(|b'|)) == 2 * (Num(a) * Pow2(|b'|));
    }
  }

  lemma {:induction false} AllBitsOctets(xs: seq<nat>)
    ensures |AllBits(xs, 8)| == 8 * |xs|
  {
    if xs == [] {
    } else {
      AllBitsOctets(xs[..|xs| - 1]);
    }
  }

  lemma AllBitsSnoc(xs: seq<nat>, x: nat, width: nat)
    ensures AllBits(xs + [x], width) == AllBits(xs, width) + Bits(x, width)
  {
    assert (xs + [x])[..|xs|] == xs;
  }

  lemma {:induction false} AllBitsCons(x: nat, ys: seq<nat>, width: nat)
    ensures AllBits([x] + ys, width) == Bits(x, width) + AllBits(ys, width)
  {
    if ys == [] {
      assert [x] + ys == [] + [x];
      AllBitsSnoc([], x, width);
      assert AllBits([], width) == [];
    } else {
      var init, last := ys[..|ys| - 1], ys[|ys| - 1];
      AllBitsCons(x, init, width);
      assert ys == init + [last] && [x] + ys == ([x] + init) + [last];
      AllBitsSnoc([x] + init, last, width);
      AllBitsSnoc(init, last, width);
    }
  }

  lemma FirstOctet(head: seq<bool>, rest: seq<bool>)
    requires |head| == 8
    ensures Octets(head + rest) == [Num(head)] + Octets(rest)
  {
    assert (head + rest)[..8] == head && (head + rest)[8..] == rest;
  }

  lemma {:induction false} OctetsConcat(a: seq<bool>, b: seq<bool>, k: nat)
    requires |a| == 8 * k
    ensures Octets(a + b) == Octets(a) + Octets(b)
  {
    if k == 0 {
      assert a + b == b;
    } else {
      var head, tail := a[..8], a[8..];
      OctetsConcat(tail, b, k - 1);
      FirstOctet(head, tail + b);
      FirstOctet(head, tail);
      assert a == head + tail && a + b == head + (tail + b);
    }
  }

  /** How many zero bits fill up the last group of five. */
  function Fill(n: nat): (k: nat)
    ensures k < 5
  {
    if n == 0 then 0 else if n < 5 then 5 - n else Fill(n - 5)
  }

  lemma OneGroup(five: seq<bool>)
    requires |five| == 5
    ensures AllBits([Five(five)], 5) == five
  {
    BitsOfNum(five);
    AllBitsSnoc([], Five(five), 5);
    assert [] + [Five(five)] == [Five(five)];
  }

  lemma LastGroup(bits: seq<bool>, full: seq<bool>)
    requires 0 < |bits| < 5 && full == bits + Zeros(5 - |bits|)
    ensures AllBits(Quintets(bits), 5) == full
  {
    OneGroup(full);
    assert Quintets(bits) == [Five(full)];
  }

  lemma FirstGroup(bits: seq<bool>, head: seq<bool>, rest: seq<bool>)
    requires |head| == 5 && bits == head + rest
    ensures AllBits(Quintets(bits), 5) == head + AllBits(Quintets(rest), 5)
  {
    assert bits[..5] == head && bits[5..] == rest;
    BitsOfNum(head);
    AllBitsCons(Five(head), Quintets(rest), 5);
  }

  lemma Append(bits: seq<bool>, head: seq<bool>, rest: seq<bool>, fill: seq<bool>)
    requires bits == head + rest
    ensures head + (rest + fill) == bits + fill
  {
  }

  /** Cutting a bit string in fives loses nothing and adds fewer than five zero bits. */
  lemma {:induction false} QuintetsKeepBits(bits: seq<bool>)
    ensures AllBits(Quintets(bits), 5) == bits + Zeros(Fill(|bits|))
  {
    if bits == [] {
      assert Zeros(Fill(0)) == [];
    } else if |bits| < 5 {
      LastGroup(bits, bits + Zeros(5 - |bits|));
    } else {
      var head, rest := bits[..5], bits[5..];
      QuintetsKeepBits(rest);
      FirstGroup(bits, head, rest);
      Append(bits, head, rest, Zeros(Fill(|rest|)));
    }
  }

  lemma OneOctet(b: Byte)
    ensures Octets(Bits(b, 8)) == [b]
  {
    assert Pow2(8) == 256;
    NumOfBits(b, 8);
    var bits := Bits(b, 8);
    assert bits[..8] == bits && bits[8..] == [];
    assert Octets(bits[8..]) == [];
  }

  lemma {:induction false} OctetsOfBytes(bytes: seq<Byte>)
    ensures Octets(AllBits(bytes, 8)) == bytes
  {
    if bytes == [] {
    } else {
      var n := |bytes| - 1;
      OctetsOfBytes(bytes[..n]);
      OneOctet(bytes[n]);
      AllBitsOctets(bytes[..n]);
      OctetsConcat(AllBits(bytes[..n], 8), Bits(bytes[n], 8), n);
    }
  }

  // ---- The decoder ----

  lemma AtLeastOnce(d: nat, k: nat)
    requires k >= 1
    ensures d * k >= d
  {
    assert d * k == d + d * (k - 1);
  }

  /** The quotient and the remainder are what they are. */
  lemma DivMod(x: nat, d: nat, q: int, r: nat)
    requires r < d && x == d * q + r
    ensures x / d == q && x % d == r
  {
    var p, s := x / d, x % d;
    assert x == d * p + s;
    if p > q {
      AtLeastOnce(d, p - q);
    } else if q > p {
      AtLeastOnce(d, q - p);
    }
  }

  lemma Pow2Shift(n: nat)
    ensures Pow2(n + 5) == 32 * Pow2(n) && Pow2(n + 8) == 256 * Pow2(n)
  {
    assert Pow2(n + 2) == 4 * Pow2(n);
    assert Pow2(n + 4) == 4 * Pow2(n + 2);
    assert Pow2(n + 6) == 4 * Pow2(n + 4);
  }

  /** The word is a multiple of every modulus the decoder looks through. */
  lemma WordIsMultiple(bits: nat) returns (k: nat)
    requires bits < 8
    ensures Pow2(bits) * 32 * k == WORD
  {
    assert Pow2(2) == 4 && Pow2(4) == 16 && Pow2(6) == 64;
    k := if bits == 0 then 0x0800_0000_0000_0000 else if bits == 1 then 0x0400_0000_0000_0000
         else if bits == 2 then 0x0200_0000_0000_0000 else if bits == 3 then 0x0100_0000_0000_0000
         else if bits == 4 then 0x0080_0000_0000_0000 else if bits == 5 then 0x0040_0000_0000_0000
         else if bits == 6 then 0x0020_0000_0000_0000 else 0x0010_0000_0000_0000;
  }

  /** A remainder modulo a multiple of `d` is the same number to `d`. */
  lemma RemainderOfMultiple(x: nat, d: nat, k: nat)
    requires d > 0 && k > 0 && d * k > 0
    ensures x % (d * k) % d == x % d
  {
    var q, r := x / (d * k), x % (d * k);
    assert x == d * (k * q + r / d) + r % d by {
      assert d * k * q == d * (k * q);
      assert d * (k * q + r / d) == d * (k * q) + d * (r / d);
    }
    DivMod(x, d, k * q + r / d, r % d);
  }

  /** Shifting left by five and adding five low bits shifts the remainder the same way. */
  lemma ShiftRemainder(x: nat, m: nat, v: Quintet)
    requires m > 0
    ensures (x * 32 + v) % (m * 32) == x % m * 32 + v
  {
    var q, r := x / m, x % m;
    assert x * 32 + v == m * 32 * q + (r * 32 + v) by {
      assert m * 32 * q == m * q * 32;
    }
    DivMod(x * 32 + v, m * 32, q, r * 32 + v);
  }

  lemma AddSmall(y: nat, d: nat, v: nat)
    requires d > 0 && y % d + v < d
    ensures (y + v) % d == y % d + v
  {
    DivMod(y + v, d, y / d, y % d + v);
  }

  /** One five-bit shift of the 64-bit word, seen through its low `bits` bits. */
  lemma ShiftIn(buf: nat, bits: nat, v: Quintet)
    requires bits < 8
    ensures (buf * 32 % WORD + v) % Pow2(bits + 5) == buf % Pow2(bits) * 32 + v
  {
    var m := Pow2(bits);
    Pow2Shift(bits);
    var k := WordIsMultiple(bits);
    RemainderOfMultiple(buf * 32, m * 32, k);
    ShiftRemainder(buf, m, 0);
    AddSmall(buf * 32 % WORD, m * 32, v);
  }

  /** Cutting a number whose low part, modulo `256 m`, is `top * m + rest`. */
  lemma Cut(buf: nat, m: nat, top: Byte, rest: nat)
    requires rest < m && buf % (m * 256) == top * m + rest
    ensures buf / m % 256 == top && buf % m == rest
  {
    var q := buf / (m * 256);
    assert buf == m * (256 * q + top) + rest by {
      assert m * 256 * q == m * (256 * q);
    }
    DivMod(buf, m, 256 * q + top, rest);
  }

  /** Taking the top eight of the word's low bits, and what is left. */
  lemma ShiftOut(buf: nat, pending: seq<bool>)
    requires 8 <= |pending| <= 12 && buf % Pow2(|pending|) == Num(pending)
    ensures buf / Pow2(|pending| - 8) % 256 == Num(pending[..8])
    ensures buf % Pow2(|pending| - 8) == Num(pending[8..])
  {
    assert pending == pending[..8] + pending[8..];
    NumConcat(pending[..8], pending[8..]);
    NumBound(pending[8..]);
    NumBound(pending[..8]);
    assert Pow2(8) == 256;
    Pow2Shift(|pending| - 8);
    Cut(buf, Pow2(|pending| - 8), Num(pending[..8]), Num(pending[8..]));
  }

  /** The decoder's variables, against the bits read so far: `done` is out, `pending` is not. */
  ghost predicate Tracks(vs: seq<Quintet>, done: seq<bool>, pending: seq<bool>,
                         buf: nat, bits: nat, out: seq<nat>)
  {
    && AllBits(vs, 5) == done + pending
    && |done| == 8 * |out| && out == Octets(done)
    && bits == |pending| < 8
    && buf < WORD && buf % Pow2(bits) == Num(pending)
  }

  lemma Finish(vs: seq<Quintet>, done: seq<bool>, pending: seq<bool>, buf: nat, bits: nat, out: seq<nat>)
    requires Tracks(vs, done, pending, buf, bits, out)
    ensures Octets(AllBits(vs, 5)) == out
  {
    OctetsConcat(done, pending, |out|);
  }

  lemma AppendBits(vs: seq<Quintet>, done: seq<bool>, pending: seq<bool>, v: Quintet)
    requires AllBits(vs, 5) == done + pending
    ensures AllBits(vs + [v], 5) == done + (pending + Bits(v, 5))
  {
    AllBitsSnoc(vs, v, 5);
  }

  lemma EmitOctet(done: seq<bool>, pending: seq<bool>, k: nat)
    requires |done| == 8 * k && |pending| >= 8
    ensures Octets(done + pending[..8]) == Octets(done) + [Num(pending[..8])]
    ensures done + pending == (done + pending[..8]) + pending[8..]
  {
    var octet := pending[..8];
    assert octet[..8] == octet && octet[8..] == [];
    OctetsConcat(done, octet, k);
  }

  lemma TrackOctet(vs: seq<Quintet>, done: seq<bool>, more: seq<bool>, buf: nat, out: seq<nat>)
    requires AllBits(vs, 5) == done + more && |done| == 8 * |out| && out == Octets(done)
    requires 8 <= |more| <= 12 && buf < WORD && buf % Pow2(|more|) == Num(more)
    ensures Tracks(vs, done + more[..8], more[8..], buf, |more| - 8,
                   out + [buf / Pow2(|more| - 8) % 256])
  {
    ShiftOut(buf, more);
    EmitOctet(done, more, |out|);
  }

  lemma LowBitsFree(buf: nat, v: Quintet)
    ensures buf * 32 % WORD + v < WORD
  {
    var q := buf * 32 / WORD;
    assert buf * 32 % WORD == 32 * (buf - q * (WORD / 32));
  }

  lemma AppendQuintet(pending: seq<bool>, buf: nat, v: Quintet)
    requires |pending| < 8 && buf % Pow2(|pending|) == Num(pending)
    ensures (buf * 32 % WORD + v) % Pow2(|pending| + 5) == Num(pending + Bits(v, 5))
  {
    ShiftIn(buf, |pending|, v);
    assert Pow2(5) == 32;
    NumOfBits(v, 5);
    NumConcat(pending, Bits(v, 5));
  }

  lemma TrackQuintet(vs: seq<Quintet>, done: seq<bool>, pending: seq<bool>,
                     buf: nat, bits: nat, out: seq<nat>, v: Quintet)
    requires Tracks(vs, done, pending, buf, bits, out)
    ensures var buf', more := buf * 32 % WORD + v, pending + Bits(v, 5);
      if bits + 5 < 8 then Tracks(vs + [v], done, more, buf', bits + 5, out)
      else Tracks(vs + [v], done + more[..8], more[8..], buf', bits - 3,
                  out + [buf' / Pow2(bits - 3) % 256])
  {
    var buf', more := buf * 32 % WORD + v, pending + Bits(v, 5);
    AppendQuintet(pending, buf, v);
    LowBitsFree(buf, v);
    AppendBits(vs, done, pending, v);
    if bits + 5 >= 8 {
      TrackOctet(vs + [v], done, more, buf', out);
    }
  }

  lemma NextCharacter(s: string, i: nat, vs: seq<Quintet>)
    requires i < |s| && Values(s[..i]) == Some(vs)
    ensures var c := Upper(s[i]);
      Values(s[..i + 1]) ==
        if Ignorable(c) then Some(vs) else if Digit(c).None? then None else Some(vs + [Digit(c).value])
  {
    assert s[..i + 1][..i] == s[..i];
  }

  lemma {:induction false} BadCharacter(s: string, i: nat)
    requires i < |s| && !Ignorable(Upper(s[i])) && Digit(Upper(s[i])).None?
    ensures Values(s).None?
    decreases |s|
  {
    if i < |s| - 1 {
      BadCharacter(s[..|s| - 1], i);
    }
  }

  /** The sliding-word decoder computes the reference decoding of the whole bit string. */
  method Decode(s: string) returns (r: Option<seq<nat>>)
    ensures r == Decoded(s)
  {
    var out: seq<nat> := [];
    var buf: nat := 0;
    var bits: nat := 0;
    ghost var vs: seq<Quintet> := [];
    ghost var done, pending: seq<bool> := [], [];
    for i := 0 to |s|
      invariant Values(s[..i]) == Some(vs)
      invariant Tracks(vs, done, pending, buf, bits, out)
    {
      var c := Upper(s[i]);
      NextCharacter(s, i, vs);
      if Ignorable(c) {
        continue;
      }
      if Digit(c).None? {
        BadCharacter(s, i);
        return None;
      }
      var v := Digit(c).value;
      TrackQuintet(vs, done, pending, buf, bits, out, v);
      vs, pending := vs + [v], pending + Bits(v, 5);
      buf := buf * 32 % WORD + v;
      bits := bits + 5;
      if bits >= 8 {
        done, pending := done + pending[..8], pending[8..];
        bits := bits - 8;
        out := out + [buf / Pow2(bits) % 256];
      }
    }
    assert s[..|s|] == s;
    Finish(vs, done, pending, buf, bits, out);
    r := Some(out);
  }

  // ---- Round trip ----

  lemma LetterOfValue(v: Quintet)
    ensures var c := Letter(v); Upper(c) == c && !Ignorable(c) && Digit(c) == Some(v)
  {
  }

  lemma {:induction false} ValuesOfSpelling(vs: seq<Quintet>)
    ensures Values(Spell(vs)) == Some(vs)
  {
    if vs == [] {
      assert Spell(vs) == "";
      assert Values("") == Some(vs);
    } else {
      var n := |vs| - 1;
      ValuesOfSpelling(vs[..n]);
      assert Spell(vs)[..n] == Spell(vs[..n]);
      LetterOfValue(vs[n]);
      assert vs == vs[..n] + [vs[n]];
    }
  }

  lemma {:induction false} PaddingIgnored(s: string, n: nat)
    ensures Values(s + seq(n, _ => '=')) == Values(s)
  {
    if n == 0 {
      assert s + seq(n, _ => '=') == s;
    } else {
      PaddingIgnored(s, n - 1);
      assert (s + seq(n, _ => '='))[..|s| + n - 1] == s + seq(n - 1, _ => '=');
    }
  }

  lemma ValuesOfEncoding(bytes: seq<Byte>)
    ensures Values(Encode(bytes)) == Some(Quintets(AllBits(bytes, 8)))
  {
    var vs := Quintets(AllBits(bytes, 8));
    ValuesOfSpelling(vs);
    PaddingIgnored(Spell(vs), Padding(|Spell(vs)|));
  }

  lemma FillIsDropped(bits: seq<bool>, fill: seq<bool>, k: nat)
    requires |bits| == 8 * k && |fill| < 5
    ensures Octets(bits + fill) == Octets(bits)
  {
    OctetsConcat(bits, fill, k);
  }

  lemma OctetsOfEncoding(bytes: seq<Byte>, bits: seq<bool>)
    requires bits == AllBits(bytes, 8)
    ensures Octets(AllBits(Quintets(bits), 5)) == bytes
  {
    QuintetsKeepBits(bits);
    AllBitsOctets(bytes);
    FillIsDropped(bits, Zeros(Fill(|bits|)), |bytes|);
    OctetsOfBytes(bytes);
  }

  /** Decoding inverts the encoding of section 6 of RFC 4648, for every byte string. */
  lemma {:induction false} RoundTrip(bytes: seq<Byte>)
    ensures Decoded(Encode(bytes)) == Some(bytes)
  {
    ValuesOfEncoding(bytes);
    OctetsOfEncoding(bytes, AllBits(bytes, 8));
  }

  // ---- What a typed secret may look like ----

  /** A text without its ignorable characters, in capitals. */
  function Canonical(s: string): string {
    if s == "" then ""
    else
      var c := Upper(s[|s| - 1]);
      Canonical(s[..|s| - 1]) + (if Ignorable(c) then "" else [c])
  }

  lemma {:induction false} CanonicalConcat(s: string, t: string)
    ensures Canonical(s + t) == Canonical(s) + Canonical(t)
  {
    if t == "" {
      assert s + t == s;
    } else {
      CanonicalConcat(s, t[..|t| - 1]);
      assert (s + t)[..|s + t| - 1] == s + t[..|t| - 1];
    }
  }

  lemma {:induction false} ValuesOfCanonical(s: string)
    ensures Values(s) == Values(Canonical(s))
  {
    if s == "" {
    } else {
      var n := |s| - 1;
      ValuesOfCanonical(s[..n]);
      var c := Upper(s[n]);
      if !Ignorable(c) {
        assert Canonical(s) == Canonical(s[..n]) + [c];
        assert Canonical(s)[..|Canonical(s)| - 1] == Canonical(s[..n]);
        assert Upper(c) == c;
      } else {
        assert Canonical(s) == Canonical(s[..n]);
      }
    }
  }

  /** Padding, white space and dashes. */
  predicate IsFiller(s: string) {
    forall c <- s :: c == '=' || c == '-' || IsSpace(c)
  }

  lemma {:induction false} FillerVanishes(filler: string)
    requires IsFiller(filler)
    ensures Canonical(filler) == ""
  {
    if filler == "" {
    } else {
      assert forall c <- filler[..|filler| - 1] :: c in filler;
      FillerVanishes(filler[..|filler| - 1]);
      assert filler[|filler| - 1] in filler;
    }
  }

  /** The same letter in a different case, or the same character. */
  predicate SameLetter(c: char, d: char) {
    c == d || (97 <= c as int <= 122 && d as int == c as int - 32) || (97 <= d as int <= 122 && c as int == d as int - 32)
  }

  lemma {:induction false} CaseVanishes(s: string, t: string)
    requires |s| == |t| && forall i :: 0 <= i < |s| ==> SameLetter(s[i], t[i])
    ensures Canonical(s) == Canonical(t)
  {
    if s == "" {
    } else {
      CaseVanishes(s[..|s| - 1], t[..|t| - 1]);
      assert SameLetter(s[|s| - 1], t[|t| - 1]);
    }
  }

  /** Letter case and inserted '=', '-' and white space change nothing, wherever they stand. */
  lemma {:induction false} SpellingDoesNotMatter(s: string, t: string, filler: string, u: string)
    requires IsFiller(filler)
    requires |s| == |t| && forall i :: 0 <= i < |s| ==> SameLetter(s[i], t[i])
    ensures Decoded(s + filler + u) == Decoded(t + u)
  {
    FillerVanishes(filler);
    CaseVanishes(s, t);
    CanonicalConcat(s + filler, u);
    CanonicalConcat(s, filler);
    CanonicalConcat(t, u);
    assert Canonical(s) + "" == Canonical(s);
    ValuesOfCanonical(s + filler + u);
    ValuesOfCanonical(t + u);
  }

  /** A letter of either case, a digit from 2 to 7, or filler. */
  predicate Legible(c: char) {
    'a' <= c <= 'z' || 'A' <= c <= 'Z' || '2' <= c <= '7' || IsFiller([c])
  }

  lemma {:induction false} LegibleIff(s: string)
    ensures Values(s).Some? <==> forall i :: 0 <= i < |s| ==> Legible(s[i])
  {
    if s == "" {
    } else {
      var n := |s| - 1;
      LegibleIff(s[..n]);
      assert forall i :: 0 <= i < n ==> s[..n][i] == s[i];
      assert s[n] in [s[n]];
    }
  }

  /** A secret can be read exactly if it has no other character. */
  lemma {:induction false} ReadableIff(s: string)
    ensures Decoded(s).Some? <==> forall i :: 0 <= i < |s| ==> Legible(s[i])
  {
    LegibleIff(s);
  }
}
