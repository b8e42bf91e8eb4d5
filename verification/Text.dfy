/** Options, and the string functions the services use. */
module Text {

  datatype Option<+T> = None | Some(value: T)

  predicate IsSpace(c: char) {
    c == ' ' || '\t' <= c <= '\r' || '\U{1C}' <= c <= '\U{1F}'
  }

  predicate IsDigit(c: char) {
    '0' <= c <= '9'
  }

  function StripLeft(s: string): (r: string)
    ensures |r| <= |s|
    ensures s == [] || !IsSpace(s[0]) ==> r == s
  {
    if s != [] && IsSpace(s[0]) then StripLeft(s[1..]) else s
  }

  function StripRight(s: string): (r: string)
    ensures |r| <= |s|
    ensures s == [] || !IsSpace(s[|s| - 1]) ==> r == s
  {
    if s != [] && IsSpace(s[|s| - 1]) then StripRight(s[..|s| - 1]) else s
  }

  function Strip(s: string): string {
    StripRight(StripLeft(s))
  }

  /** str.split on a one-character separator. */
  function Split(s: string, sep: char): (parts: seq<string>)
    ensures parts != []
  {
    if s == [] then [[]]
    else if s[0] == sep then [[]] + Split(s[1..], sep)
    else var rest := Split(s[1..], sep); [[s[0]] + rest[0]] + rest[1..]
  }

  function LowerChar(c: char): char {
    if 'A' <= c <= 'Z' then (c - 'A') + 'a' else c
  }

  function Lower(s: string): string {
    seq(|s|, i requires 0 <= i < |s| => LowerChar(s[i]))
  }

  lemma {:induction false} SplitPlain(s: string, sep: char)
    requires sep !in s
    ensures Split(s, sep) == [s]
  {
    if s != [] {
      SplitPlain(s[1..], sep);
      assert [s[0]] + s[1..] == s;
    }
  }

  lemma {:induction false} SplitTwo(a: string, b: string, sep: char)
    requires sep !in a && sep !in b
    ensures Split(a + [sep] + b, sep) == [a, b]
  {
    var s := a + [sep] + b;
    if a == [] {
      assert s == [sep] + b && s[1..] == b;
      SplitPlain(b, sep);
    } else {
      SplitTwo(a[1..], b, sep);
      assert s[1..] == a[1..] + [sep] + b;
      assert [a[0]] + a[1..] == a;
    }
  }

  /** A last part that has no separator is split off. */
  lemma {:induction false} SplitLast(a: string, b: string, sep: char)
    requires sep !in b
    ensures Split(a + [sep] + b, sep) == Split(a, sep) + [b]
    decreases |a|
  {
    var s := a + [sep] + b;
    if a == [] {
      assert s[1..] == b;
      SplitPlain(b, sep);
    } else {
      assert s[0] == a[0] && s[1..] == a[1..] + [sep] + b;
      SplitLast(a[1..], b, sep);
    }
  }

  /** The last part is what follows the last separator, or the whole text when there is none. */
  lemma {:induction false} LastPart(s: string, sep: char)
    ensures var parts := Split(s, sep);
      var last := parts[|parts| - 1];
      && |last| <= |s| && s[|s| - |last|..] == last
      && if |parts| == 1 then last == s else |last| < |s| && s[|s| - |last| - 1] == sep
    decreases |s|
  {
    if s != [] {
      var rest := Split(s[1..], sep);
      LastPart(s[1..], sep);
      if s[0] == sep {
        assert Split(s, sep) == [[]] + rest;
      } else {
        assert Split(s, sep) == [[s[0]] + rest[0]] + rest[1..];
        assert |rest| == 1 ==> [s[0]] + s[1..] == s;
      }
      hide Split;
      var last := rest[|rest| - 1];
      if |last| <= |s| - 1 { Behind(s, |s| - |last|); }
    }
  }

  lemma Behind(s: string, i: nat)
    requires 0 < i <= |s|
    ensures s[i..] == s[1..][i - 1..]
    ensures i > 1 ==> s[i - 1] == s[1..][i - 2]
  {
  }

  /** The first part is what precedes the first separator, or the whole text when there is none. */
  lemma {:induction false} FirstPart(s: string, sep: char)
    ensures var a := Split(s, sep)[0];
      a <= s && sep !in a && (|a| < |s| ==> s[|a|] == sep)
  {
    if s != [] && s[0] != sep {
      FirstPart(s[1..], sep);
      var a := Split(s[1..], sep)[0];
      assert s == [s[0]] + s[1..] && s[1..][..|a|] == a;
    }
  }

  // ---- what the functions are ------------------------------------------------------------------

  /** The characters str.strip takes for white space, by code. */
  lemma SpaceCodes(c: char)
    ensures IsSpace(c) <==> c as int == 32 || 9 <= c as int <= 13 || 28 <= c as int <= 31
  {
  }

  /** Lower changes the codes of the letters A to Z, and nothing else. */
  lemma LowerIs(s: string, i: nat)
    requires i < |s|
    ensures |Lower(s)| == |s|
    ensures Lower(s)[i] as int == if 65 <= s[i] as int <= 90 then s[i] as int + 32 else s[i] as int
  {
  }

  lemma {:induction false} StripLeftIs(s: string) returns (i: nat)
    ensures i <= |s| && StripLeft(s) == s[i..] && (forall k :: 0 <= k < i ==> IsSpace(s[k]))
    ensures i < |s| ==> !IsSpace(s[i])
  {
    if s != [] && IsSpace(s[0]) {
      var n := StripLeftIs(s[1..]);
      i := n + 1;
      assert s[1..][n..] == s[i..] && forall k :: 0 < k < i ==> s[k] == s[1..][k - 1];
    } else {
      i := 0;
    }
  }

  lemma {:induction false} StripRightIs(s: string) returns (j: nat)
    ensures j <= |s| && StripRight(s) == s[..j] && (forall k :: j <= k < |s| ==> IsSpace(s[k]))
    ensures j > 0 ==> !IsSpace(s[j - 1])
  {
    j := |s|;
    if s != [] && IsSpace(s[|s| - 1]) {
      j := StripRightIs(s[..|s| - 1]);
      assert s[..|s| - 1][..j] == s[..j];
    }
  }

  /** Strip takes away white space at both ends, and all of it. */
  lemma StripIs(s: string) returns (i: nat, j: nat)
    ensures i <= j <= |s| && Strip(s) == s[i..j]
    ensures forall k :: 0 <= k < i || j <= k < |s| ==> IsSpace(s[k])
    ensures i < j ==> !IsSpace(s[i]) && !IsSpace(s[j - 1])
  {
    i := StripLeftIs(s);
    var n := StripRightIs(s[i..]);
    j := i + n;
    assert s[i..][..n] == s[i..j] && forall k :: i <= k < |s| ==> s[k] == s[i..][k - i];
  }

  function Join(parts: seq<string>, sep: char): string
    requires parts != []
  {
    if |parts| == 1 then parts[0] else parts[0] + [sep] + Join(parts[1..], sep)
  }

  /** Split takes a text apart at every separator, and nowhere else. */
  lemma SplitIs(s: string, sep: char)
    ensures Join(Split(s, sep), sep) == s
    ensures forall p :: p in Split(s, sep) ==> sep !in p
  {
    JoinSplit(s, sep);
    NoSeparators(s, sep);
  }

  lemma {:induction false} JoinSplit(s: string, sep: char)
    ensures Join(Split(s, sep), sep) == s
  {
    if s != [] {
      var rest := Split(s[1..], sep);
      JoinSplit(s[1..], sep);
      assert s == [s[0]] + s[1..];
      assert Split(s, sep)[1..] == if s[0] == sep then rest else rest[1..];
    }
  }

  lemma {:induction false} NoSeparators(s: string, sep: char)
    ensures forall p :: p in Split(s, sep) ==> sep !in p
  {
    if s != [] {
      var rest := Split(s[1..], sep);
      NoSeparators(s[1..], sep);
      forall p | p in Split(s, sep) ensures sep !in p {
        if s[0] != sep && p == [s[0]] + rest[0] { assert rest[0] in rest; }
      }
    }
  }

  /** A first part that has no separator is split off. */
  lemma {:induction false} SplitFirst(a: string, rest: string, sep: char)
    requires sep !in a
    ensures Split(a + [sep] + rest, sep) == [a] + Split(rest, sep)
    decreases |a|
  {
    var s := a + [sep] + rest;
    if a == [] {
      assert s[1..] == rest;
    } else {
      SplitFirst(a[1..], rest, sep);
      assert s[1..] == a[1..] + [sep] + rest && [a[0]] + a[1..] == a;
    }
  }

  lemma {:induction false} SplitJoin(parts: seq<string>, sep: char)
    requires parts != [] && forall p :: p in parts ==> sep !in p
    ensures Split(Join(parts, sep), sep) == parts
  {
    if |parts| == 1 {
      SplitPlain(parts[0], sep);
    } else {
      SplitJoin(parts[1..], sep);
      SplitFirst(parts[0], Join(parts[1..], sep), sep);
      assert Join(parts, sep) == parts[0] + [sep] + Join(parts[1..], sep);
    }
  }

  /** The number that decimal digits denote. */
  function Decimal(s: string): nat
    requires forall c :: c in s ==> IsDigit(c)
  {
    if s == [] then 0
    else
      assert IsDigit(s[|s| - 1]) by { assert s[|s| - 1] in s; }
      Decimal(s[..|s| - 1]) * 10 + (s[|s| - 1] - '0') as nat
  }
}
