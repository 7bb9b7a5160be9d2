/** Splitting and joining text at a separator character.

  A Rust `str` is kept as the sequence of its UTF-8 bytes, one `char` each: every
  operation of the signing program looks at ASCII bytes only. */
module Texts {
  function Split(s: string, sep: char): (parts: seq<string>)
    ensures |parts| > 0
    decreases |s|
  {
    if s == "" then [""]
    else if s[0] == sep then [""] + Split(s[1..], sep)
    else
      var rest := Split(s[1..], sep);
      [[s[0]] + rest[0]] + rest[1..]
  }

  function Join(parts: seq<string>, sep: char): string {
    if parts == [] then ""
    else if |parts| == 1 then parts[0]
    else parts[0] + [sep] + Join(parts[1..], sep)
  }

  lemma {:induction false} JoinOfSplit(s: string, sep: char)
    ensures Join(Split(s, sep), sep) == s
    decreases |s|
  {
    if s != "" {
      JoinOfSplit(s[1..], sep);
      JoinWithHead(Split(s[1..], sep), s[0], sep);
      assert s == [s[0]] + s[1..];
    }
  }

  /** Joining again after one more character in front. */
  lemma JoinWithHead(rest: seq<string>, c: char, sep: char)
    requires rest != []
    ensures Join([""] + rest, sep) == [sep] + Join(rest, sep)
    ensures Join([[c] + rest[0]] + rest[1..], sep) == [c] + Join(rest, sep)
  {
    assert ([""] + rest)[1..] == rest;
    var parts := [[c] + rest[0]] + rest[1..];
    assert parts[1..] == rest[1..];
    if |rest| > 1 {
      assert Join(parts, sep) == ([c] + rest[0]) + [sep] + Join(rest[1..], sep);
      assert Join(rest, sep) == rest[0] + [sep] + Join(rest[1..], sep);
    }
  }

  lemma {:induction false} SplitPartsClean(s: string, sep: char)
    ensures forall i | 0 <= i < |Split(s, sep)| :: sep !in Split(s, sep)[i]
    decreases |s|
  {
    if s != "" {
      SplitPartsClean(s[1..], sep);
    }
  }

  lemma SplitLoses(s: string, sep: char)
    ensures Join(Split(s, sep), sep) == s
    ensures forall i | 0 <= i < |Split(s, sep)| :: sep !in Split(s, sep)[i]
  {
    JoinOfSplit(s, sep);
    SplitPartsClean(s, sep);
  }

  lemma {:induction false} SplitOne(s: string, sep: char)
    requires sep !in s
    ensures Split(s, sep) == [s]
  {
    if s != "" {
      SplitOne(s[1..], sep);
      assert s == [s[0]] + s[1..];
    }
  }

  lemma {:induction false} SplitHead(s: string, sep: char, rest: string)
    requires sep !in s
    ensures Split(s + [sep] + rest, sep) == [s] + Split(rest, sep)
  {
    var whole := s + [sep] + rest;
    if s == "" {
      assert whole[1..] == rest;
    } else {
      SplitHead(s[1..], sep, rest);
      assert whole[1..] == s[1..] + [sep] + rest;
      assert s == [s[0]] + s[1..];
    }
  }

  lemma {:induction false} SplitOfJoin(parts: seq<string>, sep: char)
    requires parts != [] && forall i | 0 <= i < |parts| :: sep !in parts[i]
    ensures Split(Join(parts, sep), sep) == parts
  {
    if |parts| == 1 {
      SplitOne(parts[0], sep);
    } else {
      SplitOfJoin(parts[1..], sep);
      SplitHead(parts[0], sep, Join(parts[1..], sep));
      assert parts == [parts[0]] + parts[1..];
    }
  }

  function FirstStop(s: string, stops: set<char>): (n: nat)
    ensures n <= |s|
  {
    if s == "" || s[0] in stops then 0 else 1 + FirstStop(s[1..], stops)
  }

  lemma {:induction false} StopsBehind(a: string, x: string, stops: set<char>)
    requires (forall c | c in a :: c !in stops) && x != "" && x[0] in stops
    ensures FirstStop(a + x, stops) == |a|
    decreases |a|
  {
    if a == "" {
      assert a + x == x;
    } else {
      assert a[0] in a;
      StopsBehind(a[1..], x, stops);
      assert (a + x)[1..] == a[1..] + x;
    }
  }

  /** Two texts cut at their first separator are equal only piece by piece. */
  lemma CutUnique(a: string, x: string, b: string, y: string, stops: set<char>)
    requires (forall c | c in a :: c !in stops) && (forall c | c in b :: c !in stops)
    requires x != "" && y != "" && x[0] in stops && y[0] in stops
    requires a + x == b + y
    ensures a == b && x == y
  {
    StopsBehind(a, x, stops);
    StopsBehind(b, y, stops);
    FixedUnique(a, x, b, y);
  }

  lemma FixedUnique(a: string, x: string, b: string, y: string)
    requires |a| == |b| && a + x == b + y
    ensures a == b && x == y
  {
    assert (a + x)[..|a|] == a && (b + y)[..|b|] == b;
    assert (a + x)[|a|..] == x && (b + y)[|b|..] == y;
  }
}
