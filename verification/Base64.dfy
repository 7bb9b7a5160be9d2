/** Base64 with the standard alphabet and canonical padding (section 4 of RFC 4648),
  on bytes kept one `char` each. The decoder is the strict one of the
  `base64` crate's standard engine: padding is required and bits left over in the last
  symbol must be zero. */
module Base64 {
  import opened Wrappers

  predicate AreBytes(s: string) {
    forall i | 0 <= i < |s| :: s[i] as int < 256
  }

  function Symbol(n: nat): char
    requires n < 64
  {
    if n < 26 then (('A' as int) + n) as char
    else if n < 52 then (('a' as int) + n - 26) as char
    else if n < 62 then (('0' as int) + n - 52) as char
    else if n == 62 then '+'
    else '/'
  }

  function ValueOf(c: char): (v: Option<nat>)
    ensures v.Some? ==> v.value < 64
  {
    if 'A' <= c <= 'Z' then Some((c as int) - ('A' as int))
    else if 'a' <= c <= 'z' then Some((c as int) - ('a' as int) + 26)
    else if '0' <= c <= '9' then Some((c as int) - ('0' as int) + 52)
    else if c == '+' then Some(62)
    else if c == '/' then Some(63)
    else None
  }

  lemma SymbolValue(n: nat, c: char)
    requires n < 64
    ensures ValueOf(c) == Some(n) <==> c == Symbol(n)
    ensures ValueOf('=').None? && Symbol(n) != '=' && ' ' < Symbol(n) <= '~'
  {
  }

  /** The four sextets of three octets, and back. */
  function S0(a: nat): nat requires a < 256 { a / 4 }
  function S1(a: nat, b: nat): (n: nat) requires a < 256 && b < 256 ensures n < 64 { (a % 4) * 16 + b / 16 }
  function S2(b: nat, c: nat): (n: nat) requires b < 256 && c < 256 ensures n < 64 { (b % 16) * 4 + c / 64 }
  function S3(c: nat): nat { c % 64 }

  function O0(p: nat, q: nat): (n: nat) requires p < 64 && q < 64 ensures n < 256 { p * 4 + q / 16 }
  function O1(q: nat, r: nat): (n: nat) requires q < 64 && r < 64 ensures n < 256 { q % 16 * 16 + r / 4 }
  function O2(r: nat, s: nat): (n: nat) requires r < 64 && s < 64 ensures n < 256 { r % 4 * 64 + s }

  function Encode(b: string): string
    requires AreBytes(b)
    decreases |b|
  {
    if |b| == 0 then ""
    else if |b| == 1 then [Symbol(S0(b[0] as int)), Symbol(S1(b[0] as int, 0)), '=', '=']
    else if |b| == 2 then
      [Symbol(S0(b[0] as int)), Symbol(S1(b[0] as int, b[1] as int)), Symbol(S2(b[1] as int, 0)), '=']
    else
      [Symbol(S0(b[0] as int)), Symbol(S1(b[0] as int, b[1] as int)),
       Symbol(S2(b[1] as int, b[2] as int)), Symbol(S3(b[2] as int))] + Encode(b[3..])
  }

  function Decode(s: string): Option<string>
    decreases |s|
  {
    if |s| == 0 then Some("")
    else if |s| < 4 then None
    else
      var v0, v1, v2, v3 := ValueOf(s[0]), ValueOf(s[1]), ValueOf(s[2]), ValueOf(s[3]);
      if v0.None? || v1.None? then None
      else if |s| == 4 && s[2] == '=' && s[3] == '=' then
        if v1.value % 16 != 0 then None else Some([O0(v0.value, v1.value) as char])
      else if v2.None? then None
      else if |s| == 4 && s[3] == '=' then
        if v2.value % 4 != 0 then None
        else Some([O0(v0.value, v1.value) as char, O1(v1.value, v2.value) as char])
      else if v3.None? then None
      else
        var rest := Decode(s[4..]);
        if rest.None? then None
        else Some([O0(v0.value, v1.value) as char, O1(v1.value, v2.value) as char, O2(v2.value, v3.value) as char]
                  + rest.value)
  }

  lemma OctetsOfSextets(a: nat, b: nat, c: nat)
    requires a < 256 && b < 256 && c < 256
    ensures S0(a) < 64 && S3(c) < 64
    ensures O0(S0(a), S1(a, b)) == a && O1(S1(a, b), S2(b, c)) == b && O2(S2(b, c), S3(c)) == c
    ensures S1(a, 0) % 16 == 0 && S2(b, 0) % 4 == 0
  {
  }

  lemma SextetsOfOctets(p: nat, q: nat, r: nat, s: nat)
    requires p < 64 && q < 64 && r < 64 && s < 64
    ensures S0(O0(p, q)) == p && S1(O0(p, q), O1(q, r)) == q && S2(O1(q, r), O2(r, s)) == r && S3(O2(r, s)) == s
    ensures q % 16 == 0 ==> S1(O0(p, q), 0) == q
    ensures r % 4 == 0 ==> S2(O1(q, r), 0) == r
  {
  }

  lemma {:induction false} DecodeOfEncode(b: string)
    requires AreBytes(b)
    ensures Decode(Encode(b)) == Some(b)
    decreases |b|
  {
    hide Symbol, ValueOf, S0, S1, S2, S3, O0, O1, O2;
    if |b| > 0 {
      var x := b[0] as int;
      var y := if |b| > 1 then b[1] as int else 0;
      var z := if |b| > 2 then b[2] as int else 0;
      OctetsOfSextets(x, y, z);
      SymbolValue(S0(x), Symbol(S0(x)));
      SymbolValue(S1(x, y), Symbol(S1(x, y)));
      SymbolValue(S2(y, z), Symbol(S2(y, z)));
      SymbolValue(S3(z), Symbol(S3(z)));
      if |b| > 2 {
        DecodeOfEncode(b[3..]);
        assert Encode(b)[4..] == Encode(b[3..]);
        assert b == [b[0], b[1], b[2]] + b[3..];
      } else if |b| == 2 {
        assert b == [b[0], b[1]];
      } else {
        assert b == [b[0]];
      }
    }
  }

  lemma {:induction false} EncodeOfDecode(s: string)
    ensures Decode(s).Some? ==> AreBytes(Decode(s).value) && Encode(Decode(s).value) == s
    decreases |s|
  {
    hide Symbol, ValueOf, S0, S1, S2, S3, O0, O1, O2;
    if Decode(s).Some? && |s| > 0 {
      var p, q := ValueOf(s[0]).value, ValueOf(s[1]).value;
      var r := if ValueOf(s[2]).Some? then ValueOf(s[2]).value else 0;
      var t := if ValueOf(s[3]).Some? then ValueOf(s[3]).value else 0;
      SextetsOfOctets(p, q, r, t);
      SymbolValue(p, s[0]);
      SymbolValue(q, s[1]);
      SymbolValue(r, s[2]);
      SymbolValue(t, s[3]);
      var b := Decode(s).value;
      if |s| == 4 && s[3] == '=' {
        assert s == [s[0], s[1], s[2], s[3]];
      } else {
        EncodeOfDecode(s[4..]);
        assert b[3..] == Decode(s[4..]).value;
        assert s == [s[0], s[1], s[2], s[3]] + s[4..];
      }
    }
  }

  /** The decoder accepts exactly the encodings, each as the bytes it encodes. */
  lemma DecodesExactlyEncodings(s: string, b: string)
    ensures Decode(s) == Some(b) <==> (AreBytes(b) && s == Encode(b))
  {
    EncodeOfDecode(s);
    if AreBytes(b) {
      DecodeOfEncode(b);
    }
  }

  /** Printable, and no blank. */
  predicate Visible(s: string) {
    forall i | 0 <= i < |s| :: ' ' < s[i] <= '~'
  }

  lemma SymbolsVisible(a: nat, b: nat, c: nat, d: nat)
    requires a < 64 && b < 64 && c < 64 && d < 64
    ensures Visible([Symbol(a), Symbol(b), Symbol(c), Symbol(d)])
    ensures Visible([Symbol(a), Symbol(b), Symbol(c), '=']) && Visible([Symbol(a), Symbol(b), '=', '='])
  {
    SymbolValue(a, '=');
    SymbolValue(b, '=');
    SymbolValue(c, '=');
    SymbolValue(d, '=');
    hide Symbol, ValueOf;
  }

  lemma LastBlockShape(b: string)
    requires AreBytes(b) && 0 < |b| < 3
    ensures |Encode(b)| == 4 && Visible(Encode(b))
  {
    hide Symbol, S0, S1, S2, S3, Visible;
    var x, y := b[0] as int, if |b| > 1 then b[1] as int else 0;
    OctetsOfSextets(x, y, 0);
    SymbolsVisible(S0(x), S1(x, y), S2(y, 0), 0);
  }

  lemma FirstBlockShape(b: string)
    requires AreBytes(b) && |b| >= 3
    ensures AreBytes(b[3..]) && |Encode(b)| == 4 + |Encode(b[3..])|
    ensures Visible(Encode(b[3..])) ==> Visible(Encode(b))
  {
    hide Symbol, S0, S1, S2, S3;
    var x, y, z := b[0] as int, b[1] as int, b[2] as int;
    OctetsOfSextets(x, y, z);
    SymbolsVisible(S0(x), S1(x, y), S2(y, z), S3(z));
    var block := [Symbol(S0(x)), Symbol(S1(x, y)), Symbol(S2(y, z)), Symbol(S3(z))];
    assert Encode(b) == block + Encode(b[3..]);
  }

  /** An encoding is visible text, four symbols to every three bytes begun. */
  lemma {:induction false} EncodingShape(b: string)
    requires AreBytes(b)
    ensures |Encode(b)| == (|b| + 2) / 3 * 4 && Visible(Encode(b))
    decreases |b|
  {
    hide Encode, Visible;
    if |b| >= 3 {
      FirstBlockShape(b);
      EncodingShape(b[3..]);
      assert (|b| + 2) / 3 == 1 + (|b| - 3 + 2) / 3;
    } else if |b| > 0 {
      LastBlockShape(b);
    } else {
      NoBlockShape(b);
    }
  }

  lemma NoBlockShape(b: string)
    requires b == ""
    ensures Encode(b) == "" && Visible(Encode(b))
  {
  }

  // ---------------------------------------------------------------- bit by bit

  const UPPER := "ABCDEFGHIJKLMNOPQRSTUVWXYZ"
  const LOWER := "abcdefghijklmnopqrstuvwxyz"
  const DIGITS := "0123456789"

  function Letter(n: nat): char
    requires n < 64
  {
    assert |UPPER| == 26 && |LOWER| == 26 && |DIGITS| == 10;
    if n < 26 then UPPER[n] else if n < 52 then LOWER[n - 26] else if n < 62 then DIGITS[n - 52] else if n == 62 then '+' else '/'
  }

  lemma UppersAre(n: nat)
    requires n < 26
    ensures UPPER[n] as int == 'A' as int + n
  {
  }

  lemma LowersAre(n: nat)
    requires n < 26
    ensures LOWER[n] as int == 'a' as int + n
  {
  }

  lemma SymbolIsLetter(n: nat)
    requires n < 64
    ensures Symbol(n) == Letter(n)
  {
    if n < 26 {
      UppersAre(n);
    } else if n < 52 {
      LowersAre(n - 26);
    } else if n < 62 {
      assert DIGITS[n - 52] as int == '0' as int + n - 52;
    }
    hide UPPER, LOWER;
  }

  lemma Remainder(q: nat, r: nat)
    requires r < 64
    ensures (64 * q + r) % 64 == r && (64 * q + r) / 64 == q
  {
  }

  /** Twenty-four bits, cut after every eighth and after every sixth. */
  lemma SameBits(a: nat, b: nat, c: nat)
    requires a < 256 && b < 256 && c < 256
    ensures var v := a * 65536 + b * 256 + c;
            S0(a) == v / 262_144 && S1(a, b) == v / 4096 % 64 && S2(b, c) == v / 64 % 64 && S3(c) == v % 64
  {
    var v := a * 65536 + b * 256 + c;
    var first := a * 16 + b / 16;
    var second := a * 1024 + b * 4 + c / 64;
    assert a * 16 + b / 16 == 64 * S0(a) + S1(a, b);
    assert second == 64 * first + S2(b, c);
    assert v == 64 * second + S3(c);
    Remainder(S0(a), S1(a, b));
    Remainder(first, S2(b, c));
    Remainder(second, S3(c));
    hide S0, S1, S2, S3;
    assert v / 4096 == v / 64 / 64 && v / 262_144 == v / 64 / 64 / 64;
  }

  lemma FirstFour(b: string)
    requires AreBytes(b) && |b| >= 3
    ensures AreBytes(b[3..]) && |Encode(b)| >= 4 && Encode(b)[4..] == Encode(b[3..])
    ensures var x, y, z := b[0] as int, b[1] as int, b[2] as int;
            S0(x) < 64 && S3(z) < 64
            && Encode(b)[..4] == [Symbol(S0(x)), Symbol(S1(x, y)), Symbol(S2(y, z)), Symbol(S3(z))]
  {
    var x, y, z := b[0] as int, b[1] as int, b[2] as int;
    assert S0(x) < 64 && S3(z) < 64;
    hide S0, S1, S2, S3, Symbol, ValueOf, Decode;
    var block := [Symbol(S0(x)), Symbol(S1(x, y)), Symbol(S2(y, z)), Symbol(S3(z))];
    assert Encode(b) == block + Encode(b[3..]);
  }

  /** The encoding, bit by bit: every three bytes are a number of twenty-four bits, and their
    four symbols the letters of its sixes. */
  lemma {:induction false} EncodesBits(b: string, i: nat)
    requires AreBytes(b) && 3 * i + 3 <= |b|
    ensures |Encode(b)| >= 4 * i + 4
    ensures var v := b[3 * i] as int * 65536 + b[3 * i + 1] as int * 256 + b[3 * i + 2] as int;
            && v / 262_144 < 64
            && Encode(b)[4 * i..4 * i + 4] == [Letter(v / 262_144), Letter(v / 4096 % 64), Letter(v / 64 % 64), Letter(v % 64)]
    decreases i
  {
    hide Encode, Letter, Symbol, S0, S1, S2, S3;
    FirstFour(b);
    if i == 0 {
      var x, y, z := b[0] as int, b[1] as int, b[2] as int;
      SameBits(x, y, z);
      SymbolIsLetter(S0(x));
      SymbolIsLetter(S1(x, y));
      SymbolIsLetter(S2(y, z));
      SymbolIsLetter(S3(z));
    } else {
      EncodesBits(b[3..], i - 1);
      assert Encode(b)[4 * i..4 * i + 4] == Encode(b)[4..][4 * (i - 1)..4 * (i - 1) + 4];
    }
  }

  lemma LastFour(b: string)
    requires AreBytes(b) && 0 < |b| < 3
    ensures var x, y := b[0] as int, if |b| == 2 then b[1] as int else 0;
            S0(x) < 64
            && Encode(b) == [Symbol(S0(x)), Symbol(S1(x, y)), if |b| == 2 then Symbol(S2(y, 0)) else '=', '=']
  {
    var x := b[0] as int;
    assert S0(x) < 64;
    hide S0, S1, S2, S3, Symbol, ValueOf, Decode;
  }

  /** Of one or two bytes left at the end the missing bits are zeros, and the missing symbols
    padding. */
  lemma {:induction false} EncodesLastBits(b: string, i: nat)
    requires AreBytes(b) && 3 * i < |b| < 3 * i + 3
    ensures |Encode(b)| >= 4
    ensures var two := |b| == 3 * i + 2;
            var v := b[3 * i] as int * 65536 + if two then b[3 * i + 1] as int * 256 else 0;
            && v / 262_144 < 64
            && Encode(b)[|Encode(b)| - 4..]
                 == [Letter(v / 262_144), Letter(v / 4096 % 64), if two then Letter(v / 64 % 64) else '=', '=']
    decreases i
  {
    hide Encode, Letter, Symbol, S0, S1, S2, S3;
    if i == 0 {
      var x, y := b[0] as int, if |b| == 2 then b[1] as int else 0;
      LastFour(b);
      SameBits(x, y, 0);
      SymbolIsLetter(S0(x));
      SymbolIsLetter(S1(x, y));
      SymbolIsLetter(S2(y, 0));
      assert Encode(b)[|Encode(b)| - 4..] == Encode(b);
    } else {
      FirstFour(b);
      var c := b[3..];
      EncodesLastBits(c, i - 1);
      assert Encode(b)[|Encode(b)| - 4..] == Encode(b)[4..][|Encode(c)| - 4..];
    }
  }
}
