/** Well-formed UTF-8 (section 4 of RFC 3629), on bytes kept one `char` each. */
module Utf8 {
  predicate Within(s: string, i: nat, low: int, high: int) {
    i < |s| && low <= s[i] as int <= high
  }

  /** Length of the character that starts the text, or 0 if none does. */
  function CharLength(s: string): nat
    requires s != ""
  {
    if Within(s, 0, 0x00, 0x7F) then 1
    else if Within(s, 0, 0xC2, 0xDF) && Within(s, 1, 0x80, 0xBF) then 2
    else if Within(s, 2, 0x80, 0xBF)
            && (   (Within(s, 0, 0xE0, 0xE0) && Within(s, 1, 0xA0, 0xBF))
                || (Within(s, 0, 0xE1, 0xEC) && Within(s, 1, 0x80, 0xBF))
                || (Within(s, 0, 0xED, 0xED) && Within(s, 1, 0x80, 0x9F))
                || (Within(s, 0, 0xEE, 0xEF) && Within(s, 1, 0x80, 0xBF))) then 3
    else if Within(s, 2, 0x80, 0xBF) && Within(s, 3, 0x80, 0xBF)
            && (   (Within(s, 0, 0xF0, 0xF0) && Within(s, 1, 0x90, 0xBF))
                || (Within(s, 0, 0xF1, 0xF3) && Within(s, 1, 0x80, 0xBF))
                || (Within(s, 0, 0xF4, 0xF4) && Within(s, 1, 0x80, 0x8F))) then 4
    else 0
  }

  predicate ValidUtf8(s: string)
    decreases |s|
  {
    s == "" || (0 < CharLength(s) <= |s| && ValidUtf8(s[CharLength(s)..]))
  }

  lemma {:induction false} AsciiIsUtf8(s: string)
    requires forall i | 0 <= i < |s| :: s[i] as int < 128
    ensures ValidUtf8(s)
    decreases |s|
  {
    if s != "" {
      AsciiIsUtf8(s[1..]);
    }
  }

  // ---------------------------------------------------------------- what is encoded

  /** Unicode scalar values: all code points but the surrogates. */
  type Scalar = n: nat | n < 0xD800 || 0xE000 <= n < 0x11_0000

  /** The bytes of one scalar value. */
  function EncodeScalar(n: Scalar): (s: string)
    ensures s != ""
  {
    if n < 0x80 then [n as char]
    else if n < 0x800 then [(0xC0 + n / 64) as char, (0x80 + n % 64) as char]
    else if n < 0x1_0000 then [(0xE0 + n / 4096) as char, (0x80 + n / 64 % 64) as char, (0x80 + n % 64) as char]
    else [(0xF0 + n / 262_144) as char, (0x80 + n / 4096 % 64) as char, (0x80 + n / 64 % 64) as char, (0x80 + n % 64) as char]
  }

  function EncodeScalars(ns: seq<Scalar>): string {
    if ns == [] then "" else EncodeScalar(ns[0]) + EncodeScalars(ns[1..])
  }

  lemma TopBits(n: Scalar)
    ensures n >= 0x1_0000 ==> n / 262_144 <= 4 && (n / 262_144 == 0 ==> n / 4096 % 64 >= 16) && (n / 262_144 == 4 ==> n / 4096 % 64 < 16)
    ensures 0x800 <= n < 0x1_0000 ==>
              n / 4096 <= 15 && (n / 4096 == 0 ==> n / 64 % 64 >= 32) && (n / 4096 == 13 ==> n / 64 % 64 < 32)
    ensures 0x80 <= n < 0x800 ==> 2 <= n / 64 < 32
  {
  }

  lemma ScalarIsCharacter(n: Scalar, rest: string)
    ensures CharLength(EncodeScalar(n) + rest) == |EncodeScalar(n)|
  {
    TopBits(n);
    var s := EncodeScalar(n) + rest;
    if n < 0x80 {
      assert s[0] == n as char;
    } else if n < 0x800 {
      assert s[0] as int == 0xC0 + n / 64 && s[1] as int == 0x80 + n % 64;
    } else if n < 0x1_0000 {
      assert s[0] as int == 0xE0 + n / 4096 && s[1] as int == 0x80 + n / 64 % 64 && s[2] as int == 0x80 + n % 64;
    } else {
      assert s[0] as int == 0xF0 + n / 262_144 && s[1] as int == 0x80 + n / 4096 % 64;
      assert s[2] as int == 0x80 + n / 64 % 64 && s[3] as int == 0x80 + n % 64;
    }
    hide EncodeScalar;
  }

  lemma CharacterIsScalar(s: string) returns (n: Scalar)
    requires s != "" && 0 < CharLength(s) <= |s|
    ensures EncodeScalar(n) == s[..CharLength(s)]
  {
    var k := CharLength(s);
    var a := s[0] as int;
    if k == 1 {
      n := a;
    } else if k == 2 {
      n := (a - 0xC0) * 64 + (s[1] as int - 0x80);
    } else if k == 3 {
      n := ThreeBytes(a - 0xE0, s[1] as int - 0x80, s[2] as int - 0x80);
    } else {
      n := FourBytes(a - 0xF0, s[1] as int - 0x80, s[2] as int - 0x80, s[3] as int - 0x80);
    }
    assert s[..k] == EncodeScalar(n);
  }

  lemma ThreeBytes(a: int, b: int, c: int) returns (n: Scalar)
    requires 0 <= a < 16 && 0 <= b < 64 && 0 <= c < 64 && (a == 0 ==> b >= 32) && (a == 13 ==> b < 32)
    ensures 0x800 <= n < 0x1_0000 && n / 4096 == a && n / 64 % 64 == b && n % 64 == c
  {
    n := a * 4096 + b * 64 + c;
    assert n / 64 == a * 64 + b;
  }

  lemma FourBytes(a: int, b: int, c: int, d: int) returns (n: Scalar)
    requires 0 <= a <= 4 && 0 <= b < 64 && 0 <= c < 64 && 0 <= d < 64 && (a == 0 ==> b >= 16) && (a == 4 ==> b < 16)
    ensures n >= 0x1_0000 && n / 262_144 == a && n / 4096 % 64 == b && n / 64 % 64 == c && n % 64 == d
  {
    n := a * 262_144 + b * 4096 + c * 64 + d;
    assert n / 64 == a * 4096 + b * 64 + c && n / 4096 == a * 64 + b;
  }

  lemma {:induction false} EncodedIsValid(ns: seq<Scalar>)
    ensures ValidUtf8(EncodeScalars(ns))
  {
    hide CharLength, EncodeScalar;
    if ns != [] {
      var first, rest := EncodeScalar(ns[0]), EncodeScalars(ns[1..]);
      ScalarIsCharacter(ns[0], rest);
      EncodedIsValid(ns[1..]);
      assert (first + rest)[|first|..] == rest;
    }
  }

  lemma {:induction false} ValidIsEncoded(s: string) returns (ns: seq<Scalar>)
    requires ValidUtf8(s)
    ensures EncodeScalars(ns) == s
    decreases |s|
  {
    hide CharLength, EncodeScalar;
    if s == "" {
      ns := [];
    } else {
      var n := CharacterIsScalar(s);
      var more := ValidIsEncoded(s[CharLength(s)..]);
      ns := [n] + more;
      assert ns[1..] == more;
      assert s == s[..CharLength(s)] + s[CharLength(s)..];
    }
  }

  /** Well-formed texts are exactly the encodings of sequences of scalar values. */
  lemma ValidExactly(s: string)
    ensures ValidUtf8(s) <==> exists ns :: EncodeScalars(ns) == s
  {
    hide ValidUtf8, EncodeScalars;
    if ValidUtf8(s) {
      var ns := ValidIsEncoded(s);
    }
    if exists ns :: EncodeScalars(ns) == s {
      var ns :| EncodeScalars(ns) == s;
      EncodedIsValid(ns);
    }
  }
}
