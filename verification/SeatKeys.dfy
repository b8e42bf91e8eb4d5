/** Seat strings: how the write-api reads a request, what it puts in the message, what the worker reads back. */
module SeatKeys {
  import opened SeatStore
  import opened Text

  /** Decimal digits, with single underscores between them. */
  function DigitsValue(s: string): Option<nat> {
    if s == [] || !IsDigit(s[|s| - 1]) then None
    else
      var d := (s[|s| - 1] - '0') as nat;
      if |s| == 1 then Some(d)
      else
        var high := DigitsValue(if s[|s| - 2] == '_' then s[..|s| - 2] else s[..|s| - 1]);
        if high.None? then None else Some(high.value * 10 + d)
  }

  /** int(text) of a text without a minus sign, and 0 where int raises. */
  function ToInt(s: string): nat {
    var t := Strip(s);
    var v := DigitsValue(if t != [] && t[0] == '+' then t[1..] else t);
    if v.None? then 0 else v.value
  }

  /** The parser both services share: exactly two positive parts. */
  function ParseSeat(s: string): Option<Seat> {
    var parts := Split(Strip(s), '-');
    if |parts| != 2 then None
    else
      var row, col := ToInt(parts[0]), ToInt(parts[1]);
      if row <= 0 || col <= 0 then None else Some(Seat(row, col))
  }

  function Digit(d: nat): char
    requires d < 10
  {
    '0' + d as char
  }

  function PrintNat(n: nat): (s: string)
    ensures s != [] && forall c :: c in s ==> IsDigit(c)
  {
    if n < 10 then [Digit(n)] else PrintNat(n / 10) + [Digit(n % 10)]
  }

  function PrintSeat(s: Seat): string {
    PrintNat(s.row) + "-" + PrintNat(s.col)
  }

  function PrintAll(seats: seq<Seat>): seq<string> {
    seq(|seats|, i requires 0 <= i < |seats| => PrintSeat(seats[i]))
  }

  /** The worker's list: every string that parses, in order. */
  function ParseAll(keys: seq<string>): seq<Seat> {
    if keys == [] then []
    else
      var p := ParseSeat(keys[0]);
      (if p.Some? then [p.value] else []) + ParseAll(keys[1..])
  }

  // ---- what is read ----------------------------------------------------------------------------

  /** Digits, with single underscores between them. */
  predicate Numeral(s: string) {
    && s != [] && IsDigit(s[0]) && IsDigit(s[|s| - 1])
    && (forall i :: 0 <= i < |s| ==> IsDigit(s[i]) || s[i] == '_')
    && (forall i :: 0 < i < |s| ==> s[i] != '_' || s[i - 1] != '_')
  }

  /** The text without its underscores. */
  function Plain(s: string): (t: string)
    ensures (forall c :: c in s ==> IsDigit(c) || c == '_') ==> forall c :: c in t ==> IsDigit(c)
  {
    if s == [] then []
    else Plain(s[..|s| - 1]) + if s[|s| - 1] == '_' then [] else [s[|s| - 1]]
  }

  /** A text is read as a number exactly when it is a numeral, and as the number its digits denote. */
  lemma {:induction false} NumeralIff(s: string)
    ensures DigitsValue(s).Some? <==> Numeral(s)
    ensures Numeral(s) ==> (forall c :: c in Plain(s) ==> IsDigit(c)) && DigitsValue(s) == Some(Decimal(Plain(s)))
  {
    hide Plain, Decimal, Numeral;
    if s == [] || !IsDigit(s[|s| - 1]) {
      NoNumeral(s);
    } else if |s| == 1 {
      OneDigit(s);
    } else {
      var t := if s[|s| - 2] == '_' then s[..|s| - 2] else s[..|s| - 1];
      NumeralIff(t);
      NumeralOn(s, t);
      PlainOn(s, t);
    }
  }

  lemma NoNumeral(s: string)
    requires s == [] || !IsDigit(s[|s| - 1])
    ensures !Numeral(s)
  {
  }

  lemma OneDigit(s: string)
    requires |s| == 1 && IsDigit(s[0])
    ensures Numeral(s) && Plain(s) == s && (forall c :: c in s ==> IsDigit(c)) && Decimal(s) == (s[0] - '0') as nat
  {
    hide Plain, Decimal, DigitsValue;
    PlainOfOne(s);
    assert s[..0] == [];
    DecimalOfOne(s);
  }

  lemma PlainOfOne(s: string)
    requires |s| == 1 && s[0] != '_'
    ensures Plain(s) == s
  {
    hide Numeral, Decimal, DigitsValue, IsDigit;
    assert s[..0] == [];
    assert Plain([]) == [];
  }

  lemma DecimalOfOne(s: string)
    requires |s| == 1 && IsDigit(s[0]) && forall c :: c in s ==> IsDigit(c)
    ensures Decimal(s) == (s[0] - '0') as nat
  {
    hide Numeral, Plain, DigitsValue;
    assert s[..0] == [];
    assert Decimal([]) == 0;
  }

  lemma NumeralOn(s: string, t: string)
    requires |s| > 1 && IsDigit(s[|s| - 1]) && t == if s[|s| - 2] == '_' then s[..|s| - 2] else s[..|s| - 1]
    ensures Numeral(s) <==> Numeral(t)
  {
    if Numeral(t) {
      forall i | 0 <= i < |s| ensures IsDigit(s[i]) || s[i] == '_' { if i < |t| { assert s[i] == t[i]; } }
      forall i | 0 < i < |s| ensures s[i] != '_' || s[i - 1] != '_' {
        if i < |t| { assert t[i] != '_' || t[i - 1] != '_'; }
      }
    }
  }

  lemma PlainOn(s: string, t: string)
    requires |s| > 1 && IsDigit(s[|s| - 1]) && t == if s[|s| - 2] == '_' then s[..|s| - 2] else s[..|s| - 1]
    ensures Plain(s) == Plain(t) + [s[|s| - 1]]
    ensures Numeral(t) ==>
      && (forall c :: c in Plain(t) ==> IsDigit(c)) && (forall c :: c in Plain(s) ==> IsDigit(c))
      && Decimal(Plain(s)) == Decimal(Plain(t)) * 10 + (s[|s| - 1] - '0') as nat
  {
    if s[|s| - 2] == '_' { assert s[..|s| - 1][..|s| - 2] == t; }
    if Numeral(t) {
      assert forall c :: c in t ==> IsDigit(c) || c == '_';
      assert Plain(s)[..|Plain(s)| - 1] == Plain(t);
    }
  }

  /** int(text): white space around it and one plus sign before it are allowed, and 0 stands for a refusal. */
  lemma ToIntIs(s: string)
    ensures var t := Strip(s);
      var core := if t != [] && t[0] == '+' then t[1..] else t;
      ToInt(s) == if Numeral(core) then Decimal(Plain(core)) else 0
  {
    var t := Strip(s);
    NumeralIff(if t != [] && t[0] == '+' then t[1..] else t);
  }

  /** A text names a seat exactly when it is, but for white space around it, a positive row, one minus sign and a
      positive column, in that order. */
  lemma ParseSeatIff(s: string, seat: Seat)
    ensures ParseSeat(s) == Some(seat) <==> exists a: string, b: string ::
      '-' !in a && '-' !in b && Strip(s) == a + ['-'] + b && ToInt(a) == seat.row && ToInt(b) == seat.col
  {
    hide ToInt, Strip;
    var t := Strip(s);
    var parts := Split(t, '-');
    SplitIs(t, '-');
    if ParseSeat(s) == Some(seat) {
      assert parts[1..] == [parts[1]];
      assert t == parts[0] + ['-'] + parts[1];
    }
    forall a: string, b: string
      | '-' !in a && '-' !in b && t == a + ['-'] + b && ToInt(a) == seat.row && ToInt(b) == seat.col
      ensures ParseSeat(s) == Some(seat)
    {
      SplitTwo(a, b, '-');
    }
  }

  lemma StripKeeps(s: string, c: char)
    requires c in s && !IsSpace(c)
    ensures c in Strip(s)
  {
    var i, j := StripIs(s);
    var k :| 0 <= k < |s| && s[k] == c;
    assert s[i..j][k - i] == c;
    hide Strip;
  }

  lemma NotANumber(s: string, c: char)
    requires c in s && !IsSpace(c) && !IsDigit(c) && c != '_' && c != '+'
    ensures ToInt(s) == 0
  {
    hide Strip, ToInt, Plain, Decimal;
    ToIntIs(s);
    StripKeeps(s, c);
    var t := Strip(s);
    var core := if t != [] && t[0] == '+' then t[1..] else t;
    var k :| 0 <= k < |t| && t[k] == c;
    if t[0] == '+' { assert core[k - 1] == c; } else { assert core[k] == c; }
  }

  /** So a request with anything but digits, underscores, signs and white space in a seat is refused: "A-12" is. */
  lemma OtherCharactersRefused(s: string, c: char)
    requires c in s && !IsSpace(c) && !IsDigit(c) && c != '_' && c != '+' && c != '-'
    ensures ParseSeat(s).None?
  {
    hide Strip, ToInt, ParseSeat;
    if ParseSeat(s).Some? {
      var seat := ParseSeat(s).value;
      ParseSeatIff(s, seat);
      var a: string, b: string :|
        '-' !in a && '-' !in b && Strip(s) == a + ['-'] + b && ToInt(a) == seat.row && ToInt(b) == seat.col;
      StripKeeps(s, c);
      if c in a { NotANumber(a, c); } else { NotANumber(b, c); }
    }
  }

  // ---- round trip ------------------------------------------------------------------------------

  lemma {:induction false} DigitsRoundTrip(n: nat)
    ensures DigitsValue(PrintNat(n)) == Some(n)
  {
    if n >= 10 {
      DigitsRoundTrip(n / 10);
      var s := PrintNat(n);
      assert s[..|s| - 1] == PrintNat(n / 10);
      assert s[|s| - 2] in PrintNat(n / 10);
    }
  }

  lemma ToIntRoundTrip(n: nat)
    ensures ToInt(PrintNat(n)) == n
  {
    var s := PrintNat(n);
    assert IsDigit(s[0]) && IsDigit(s[|s| - 1]);
    DigitsRoundTrip(n);
  }

  /** What the write-api prints, the worker parses back. */
  lemma SeatRoundTrip(s: Seat)
    ensures ParseSeat(PrintSeat(s)) == Some(s)
  {
    var a, b := PrintNat(s.row), PrintNat(s.col);
    var t := PrintSeat(s);
    assert t[0] in a && t[|t| - 1] in b;
    assert IsDigit(t[0]) && IsDigit(t[|t| - 1]);
    assert t == a + ['-'] + b;
    SplitTwo(a, b, '-');
    ToIntRoundTrip(s.row);
    ToIntRoundTrip(s.col);
  }

  /** The whole list survives the message, in order and with nothing dropped. */
  lemma {:induction false} MessageRoundTrip(seats: seq<Seat>)
    ensures ParseAll(PrintAll(seats)) == seats
  {
    if seats != [] {
      assert PrintAll(seats)[1..] == PrintAll(seats[1..]);
      SeatRoundTrip(seats[0]);
      MessageRoundTrip(seats[1..]);
    }
  }

  /** The positions of the strings that name a seat. */
  function Readable(keys: seq<string>): set<int> {
    set i | 0 <= i < |keys| && ParseSeat(keys[i]).Some?
  }

  lemma {:induction false} ParseAllLast(keys: seq<string>)
    requires keys != []
    ensures var n := |keys| - 1;
      ParseAll(keys) == ParseAll(keys[..n]) + if ParseSeat(keys[n]).Some? then [ParseSeat(keys[n]).value] else []
  {
    hide ParseSeat;
    if |keys| > 1 {
      var n := |keys| - 1;
      ParseAllLast(keys[1..]);
      assert keys[1..][..n - 1] == keys[..n][1..] && keys[1..][n - 1] == keys[n];
    }
  }

  /** Some item of the request names the seat. */
  predicate Names(items: seq<string>, s: Seat) {
    exists i :: 0 <= i < |items| && ParseSeat(items[i]) == Some(s)
  }

  lemma NamesLast(items: seq<string>, s: Seat)
    requires items != []
    ensures Names(items, s) <==> Names(items[..|items| - 1], s) || ParseSeat(items[|items| - 1]) == Some(s)
  {
    hide ParseSeat;
    var n := |items| - 1;
    if Names(items[..n], s) {
      var i :| 0 <= i < n && ParseSeat(items[..n][i]) == Some(s);
      assert ParseSeat(items[i]) == Some(s);
    }
    if i :| 0 <= i < n && ParseSeat(items[i]) == Some(s) {
      assert ParseSeat(items[..n][i]) == Some(s);
    }
  }

  /** The worker's list has a seat for every string that names one. */
  lemma {:induction false} ParseAllNames(keys: seq<string>, s: Seat)
    ensures s in ParseAll(keys) <==> Names(keys, s)
  {
    hide ParseSeat, ParseAll, Names;
    if keys == [] {
      NothingNamed(s);
    } else {
      var n := |keys| - 1;
      ParseAllNames(keys[..n], s);
      ParseAllLast(keys);
      NamesLast(keys, s);
    }
  }

  lemma NothingNamed(s: Seat)
    ensures ParseAll([]) == [] && !Names([], s) && Readable([]) == {}
  {
  }

  lemma {:induction false} ParseAllCounts(keys: seq<string>)
    ensures |ParseAll(keys)| == |Readable(keys)|
  {
    hide ParseSeat, ParseAll;
    if keys == [] {
      NothingNamed(Seat(1, 1));
    } else {
      var n := |keys| - 1;
      ParseAllCounts(keys[..n]);
      ParseAllLast(keys);
      assert Readable(keys) == Readable(keys[..n]) + if ParseSeat(keys[n]).Some? then {n} else {};
    }
  }

  // ---- the request -----------------------------------------------------------------------------

  predicate AllParse(items: seq<string>) {
    forall i :: 0 <= i < |items| ==> ParseSeat(items[i]).Some?
  }

  /** The parsed seats in order of first occurrence. */
  function FirstSeen(items: seq<string>): seq<Seat>
    requires AllParse(items)
  {
    if items == [] then []
    else
      var n := |items| - 1;
      var before := FirstSeen(items[..n]);
      var seat := ParseSeat(items[n]).value;
      if seat in before then before else before + [seat]
  }

  /** First occurrences are distinct and cover exactly the seats named. */
  lemma {:induction false} FirstSeenCovers(items: seq<string>)
    requires AllParse(items)
    ensures Distinct(FirstSeen(items))
    ensures forall s :: s in FirstSeen(items) <==> Names(items, s)
    ensures items != [] ==> FirstSeen(items) != []
  {
    if items != [] {
      var n := |items| - 1;
      FirstSeenCovers(items[..n]);
      assert AllParse(items[..n]) && ParseSeat(items[n]).Some?;
      hide ParseSeat, Names, AllParse;
      forall s ensures s in FirstSeen(items) <==> Names(items, s) {
        NamesLast(items, s);
      }
    }
  }

  /** The write-api's loop over the requested seats; None is BAD_SEAT_KEY. */
  method ParseRequest(items: seq<string>) returns (seats: Option<seq<Seat>>)
    ensures seats.Some? <==> AllParse(items)
    ensures seats.Some? ==> seats.value == FirstSeen(items)
  {
    hide ParseSeat;
    var parsed: seq<Seat> := [];
    var seen: set<Seat> := {};
    for i := 0 to |items|
      invariant AllParse(items[..i])
      invariant parsed == FirstSeen(items[..i])
      invariant forall s :: s in seen <==> s in parsed
    {
      var p := ParseSeat(items[i]);
      if p.None? {
        return None;
      }
      assert items[..i + 1][..i] == items[..i];
      if p.value in seen {
        continue;
      }
      seen := seen + {p.value};
      parsed := parsed + [p.value];
    }
    assert items[..|items|] == items;
    return Some(parsed);
  }
}
