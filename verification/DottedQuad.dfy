/** The dotted-quad fields of the settings page (`eth_spi_bridge.c`): the number scanner, the four-octet loop and the
    "%d.%d.%d.%d" printing it undoes. A pointer into a C string is the rest of the string from there; the empty rest is
    the terminator, and a pointer beyond the terminator is out of bounds. */
module DottedQuad {
  import opened Common

  /** Storing into a `UINT8`. */
  function U8(n: nat): (r: nat)
    ensures r < 256 && (n < 256 ==> r == n)
  {
    if n < 256 then n else U8(n - 256)
  }

  lemma {:induction false} U8IsMod(n: nat)
    ensures U8(n) == n % 256
  {
    if n >= 256 {
      U8IsMod(n - 256);
    }
  }

  predicate IsDigit(c: char) { '0' <= c <= '9' }

  function Digit(c: char): nat {
    if IsDigit(c) then c as nat - '0' as nat else 0
  }

  /** Length of the digits a text starts with. */
  function RunLength(s: string): (n: nat)
    ensures n <= |s|
  {
    if s == [] || !IsDigit(s[0]) then 0 else 1 + RunLength(s[1..])
  }

  /** Those characters are digits and the next is none. */
  lemma {:induction false} RunIsDigits(s: string)
    ensures var n := RunLength(s);
            (forall i | 0 <= i < n :: IsDigit(s[i])) && (n < |s| ==> !IsDigit(s[n]))
  {
    if s != [] && IsDigit(s[0]) {
      RunIsDigits(s[1..]);
      forall i | 0 <= i < RunLength(s) ensures IsDigit(s[i]) {
        assert i > 0 ==> s[i] == s[1..][i - 1];
      }
    }
  }

  predicate AllDigits(s: string) { forall i | 0 <= i < |s| :: IsDigit(s[i]) }

  /** Decimal value of a string of digits. */
  function Value(s: string): nat {
    if s == [] then 0 else 10 * Value(s[..|s| - 1]) + Digit(s[|s| - 1])
  }

  /** The scanner: value and length of the digits at the pointer, both in eight bits. */
  method Atoi(s: string) returns (incr: nat, num: nat)
    ensures incr == U8(RunLength(s)) && num == U8(Value(s[..RunLength(s)]))
  {
    incr, num := 0, 0;
    var ptr := 0;
    while ptr < |s| && IsDigit(s[ptr])
      invariant ptr <= |s| && AllDigits(s[..ptr])
      invariant incr == U8(ptr) && num == U8(Value(s[..ptr]))
    {
      AtoiStep(s, ptr);
      num := U8(10 * num + Digit(s[ptr]));
      ptr := ptr + 1;
      incr := U8(incr + 1);
    }
    assert forall i | 0 <= i < ptr :: s[i] == s[..ptr][i];
    RunIsUnique(s, ptr);
  }

  /** One more digit, in eight bits. */
  lemma AtoiStep(s: string, n: nat)
    requires n < |s| && AllDigits(s[..n]) && IsDigit(s[n])
    ensures AllDigits(s[..n + 1])
    ensures U8(Value(s[..n + 1])) == U8(10 * U8(Value(s[..n])) + Digit(s[n]))
    ensures U8(n + 1) == U8(U8(n) + 1)
  {
    ValueSnoc(s, n);
    Wrap(10, Value(s[..n]), Digit(s[n]));
    Wrap(1, n, 1);
  }

  lemma ValueSnoc(s: string, n: nat)
    requires n < |s| && AllDigits(s[..n]) && IsDigit(s[n])
    ensures AllDigits(s[..n + 1])
    ensures Value(s[..n + 1]) == 10 * Value(s[..n]) + Digit(s[n])
  {
    assert s[..n + 1][..n] == s[..n];
  }

  /** Wrapping early does not change the result. */
  lemma {:induction false} Wrap(k: nat, v: nat, d: nat)
    ensures U8(k * U8(v) + d) == U8(k * v + d)
    decreases v
  {
    if v >= 256 {
      Wrap(k, v - 256, d);
      WrapMultiple(k * (v - 256) + d, k);
      assert k * (v - 256) + d + 256 * k == k * v + d;
    }
  }

  lemma {:induction false} WrapMultiple(n: nat, k: nat)
    ensures U8(n + 256 * k) == U8(n)
  {
    if k > 0 {
      WrapMultiple(n, k - 1);
    }
  }

  lemma {:induction false} RunIsUnique(s: string, n: nat)
    requires n <= |s| && (forall i | 0 <= i < n :: IsDigit(s[i])) && (n < |s| ==> !IsDigit(s[n]))
    ensures RunLength(s) == n
  {
    if n > 0 {
      RunIsUnique(s[1..], n - 1);
    }
  }

  function Prepend(octets: seq<nat>, rest: Option<seq<nat>>): Option<seq<nat>> {
    if rest.None? then None else Some(octets + rest.value)
  }

  /** The pointer `n` characters on; there is none beyond the terminator. */
  function Advance(s: string, n: nat): Option<string> {
    if n <= |s| then Some(s[n..]) else None
  }

  /** The octet at the pointer. */
  function Octet(s: string): nat {
    U8(Value(s[..RunLength(s)]))
  }

  /** How far one octet moves the pointer: past its digits and one more character. */
  function Stride(s: string): (n: nat)
    ensures n > 0
  {
    U8(RunLength(s)) + 1
  }

  /** `k` octets from the pointer on, or nothing when the scan reads out of bounds. */
  function Octets(ptr: Option<string>, k: nat): Option<seq<nat>>
    decreases k
  {
    if k == 0 then Some([])
    else if ptr.None? then None
    else Prepend([Octet(ptr.value)], Octets(Advance(ptr.value, Stride(ptr.value)), k - 1))
  }

  lemma PrependTwice(a: seq<nat>, b: seq<nat>, rest: Option<seq<nat>>)
    ensures Prepend(a, Prepend(b, rest)) == Prepend(a + b, rest)
    ensures Prepend([], rest) == rest
  {
    if rest.Some? {
      assert a + (b + rest.value) == (a + b) + rest.value && [] + rest.value == rest.value;
    }
  }

  /** One turn of the octet loop. */
  lemma OctetStep(octets: seq<nat>, ptr: Option<string>, k: nat, goal: Option<seq<nat>>)
    requires 0 < k && goal == Prepend(octets, Octets(ptr, k))
    ensures if ptr.None? then goal.None?
            else goal == Prepend(octets + [Octet(ptr.value)], Octets(Advance(ptr.value, Stride(ptr.value)), k - 1))
  {
    if ptr.Some? {
      PrependTwice(octets, [Octet(ptr.value)], Octets(Advance(ptr.value, Stride(ptr.value)), k - 1));
    }
  }

  /** The octet at the pointer, and the pointer behind it. */
  method NextOctet(s: string) returns (num: nat, rest: Option<string>)
    ensures num == Octet(s) && rest == Advance(s, Stride(s))
  {
    var incr;
    incr, num := Atoi(s);
    rest := Advance(s, incr + 1);
  }

  /** The octet loop; the settings page runs it for four octets. */
  method ParseOctets(text: string, count: nat) returns (address: Option<seq<nat>>)
    ensures address == Octets(Some(text), count)
  {
    var octets: seq<nat> := [];
    var ptr := Some(text);
    var i := 0;
    ghost var goal := Octets(ptr, count);
    PrependTwice([], [], goal);
    while i < count
      invariant i <= count && goal == Prepend(octets, Octets(ptr, count - i))
    {
      OctetStep(octets, ptr, count - i, goal);
      if ptr.None? {
        return None;
      }
      var num, rest := NextOctet(ptr.value);
      octets, ptr, i := octets + [num], rest, i + 1;
    }
    address := Some(octets);
    assert octets + [] == octets;
  }

  /** A field of fewer than 256 digits, up to its separator. */
  lemma OneOctet(d: string, p: char, rest: string, k: nat)
    requires AllDigits(d) && |d| < 256 && !IsDigit(p) && 0 < k
    ensures Octets(Some(d + [p] + rest), k) == Prepend([U8(Value(d))], Octets(Some(rest), k - 1))
  {
    var s := d + [p] + rest;
    RunIsUnique(s, |d|);
    assert s[..|d|] == d && s[|d| + 1..] == rest;
  }

  lemma LastOctet(d: string, tail: string)
    requires AllDigits(d) && (tail != [] ==> !IsDigit(tail[0]))
    ensures Octets(Some(d + tail), 1) == Some([U8(Value(d))])
  {
    RunIsUnique(d + tail, |d|);
    assert (d + tail)[..|d|] == d && [U8(Value(d))] + [] == [U8(Value(d))];
  }

  /** Runs of digits, each with the character behind it, and a last text. */
  function Joined(fields: seq<(string, char)>, last: string): string {
    if fields == [] then last else fields[0].0 + [fields[0].1] + Joined(fields[1..], last)
  }

  predicate ValidFields(fields: seq<(string, char)>) {
    forall i | 0 <= i < |fields| :: AllDigits(fields[i].0) && |fields[i].0| < 256 && !IsDigit(fields[i].1)
  }

  /** Values of the fields and of the last run, modulo 256. */
  function Values(fields: seq<(string, char)>, last: string): seq<nat> {
    if fields == [] then [U8(Value(last))] else [U8(Value(fields[0].0))] + Values(fields[1..], last)
  }

  /** Any number of digit runs of fewer than 256 digits, with any separators between them and anything that is not a
      digit behind the last: the loop yields their values modulo 256, in order. */
  lemma {:induction false} EveryField(fields: seq<(string, char)>, last: string, tail: string)
    requires ValidFields(fields) && AllDigits(last) && (tail != [] ==> !IsDigit(tail[0]))
    ensures Octets(Some(Joined(fields, last + tail)), |fields| + 1) == Some(Values(fields, last))
  {
    if fields == [] {
      LastOctet(last, tail);
    } else {
      EveryField(fields[1..], last, tail);
      FieldBefore(fields[0].0, fields[0].1, Joined(fields[1..], last + tail), |fields|, Values(fields[1..], last));
    }
  }

  lemma FieldBefore(d: string, p: char, rest: string, k: nat, values: seq<nat>)
    requires AllDigits(d) && |d| < 256 && !IsDigit(p) && 0 < k && Octets(Some(rest), k) == Some(values)
    ensures Octets(Some(d + [p] + rest), k + 1) == Some([U8(Value(d))] + values)
  {
    OneOctet(d, p, rest, k + 1);
  }

  function DigitChar(n: nat): (c: char)
    requires n < 10
    ensures IsDigit(c) && Digit(c) == n
  {
    ('0' as nat + n) as char
  }

  /** `%d` of a number that is not negative. */
  function Decimal(n: nat): (s: string)
    ensures s != []
  {
    if n < 10 then [DigitChar(n)] else Decimal(n / 10) + [DigitChar(n % 10)]
  }

  lemma ValueAppend(s: string, c: char)
    requires AllDigits(s) && IsDigit(c)
    ensures AllDigits(s + [c]) && Value(s + [c]) == 10 * Value(s) + Digit(c)
  {
    assert (s + [c])[..|s + [c]| - 1] == s;
  }

  lemma {:induction false} ValueOfDecimal(n: nat)
    ensures AllDigits(Decimal(n)) && Value(Decimal(n)) == n
  {
    if n >= 10 {
      ValueOfDecimal(n / 10);
      ValueAppend(Decimal(n / 10), DigitChar(n % 10));
    } else {
      ValueAppend([], DigitChar(n));
      assert [] + [DigitChar(n)] == Decimal(n);
    }
  }

  /** `%d` prints no leading zero, and is the only text without one that has the value. */
  lemma {:induction false} DecimalIsCanonical(n: nat, s: string)
    requires s != [] && AllDigits(s) && (|s| > 1 ==> s[0] != '0') && Value(s) == n
    ensures s == Decimal(n)
    decreases |s|
  {
    var init, last := s[..|s| - 1], s[|s| - 1];
    assert s == init + [last];
    assert IsDigit(last) && DigitChar(Digit(last)) == last;
    if |s| > 1 {
      ValueIsPositive(init);
      DecimalIsCanonical(Value(init), init);
      assert n / 10 == Value(init) && n % 10 == Digit(last);
    } else {
      assert init == [];
    }
  }

  lemma {:induction false} ValueIsPositive(s: string)
    requires s != [] && AllDigits(s) && s[0] != '0'
    ensures Value(s) > 0
  {
    if |s| > 1 {
      ValueIsPositive(s[..|s| - 1]);
    }
  }

  lemma {:induction false} NoLeadingZero(n: nat)
    ensures |Decimal(n)| > 1 ==> Decimal(n)[0] != '0'
    ensures n > 0 ==> Decimal(n)[0] != '0'
  {
    if n >= 10 {
      NoLeadingZero(n / 10);
    } else {
      assert n > 0 ==> Digit(DigitChar(n)) != 0;
    }
  }

  /** A byte has at most three digits. */
  lemma ByteLength(n: nat)
    requires n < 256
    ensures |Decimal(n)| <= 3
  {
    if n >= 100 {
      assert |Decimal(n / 10 / 10)| == 1;
      assert |Decimal(n / 10)| == 2;
    }
  }

  /** Printed numbers, all but the last, with the dots behind them. */
  function DottedFields(x: seq<nat>): seq<(string, char)> {
    if |x| <= 1 then [] else [(Decimal(x[0]), '.')] + DottedFields(x[1..])
  }

  /** Numbers printed with dots between them; "%d.%d.%d.%d" for four. */
  function PrintDotted(x: seq<nat>): string
    requires x != []
  {
    Joined(DottedFields(x), Decimal(x[|x| - 1]))
  }

  /** What is printed for an address: its four numbers with a dot between them. */
  lemma FourOctets(a: nat, b: nat, c: nat, d: nat)
    ensures PrintDotted([a, b, c, d]) ==
            Decimal(a) + "." + (Decimal(b) + "." + (Decimal(c) + "." + Decimal(d)))
  {
    JoinedDotted([a], [b, c, d]);
    JoinedDotted([b], [c, d]);
    JoinedDotted([c], [d]);
    assert [a] + [b, c, d] == [a, b, c, d] && [b] + [c, d] == [b, c, d] && [c] + [d] == [c, d];
  }

  lemma JoinedDotted(x: seq<nat>, y: seq<nat>)
    requires |x| == 1 && y != []
    ensures PrintDotted(x + y) == Decimal(x[0]) + "." + PrintDotted(y)
  {
    assert (x + y)[1..] == y;
    assert DottedFields(x + y) == [(Decimal(x[0]), '.')] + DottedFields(y);
    assert ([(Decimal(x[0]), '.')] + DottedFields(y))[1..] == DottedFields(y);
  }

  lemma {:induction false} PrintedFields(x: seq<nat>)
    requires x != [] && forall i | 0 <= i < |x| :: x[i] < 256
    ensures var fields, last := DottedFields(x), Decimal(x[|x| - 1]);
            |fields| == |x| - 1 && ValidFields(fields) && AllDigits(last) && Values(fields, last) == x
  {
    ValueOfDecimal(x[0]);
    ByteLength(x[0]);
    if |x| > 1 {
      PrintedFields(x[1..]);
      FirstField((Decimal(x[0]), '.'), DottedFields(x[1..]), Decimal(x[|x| - 1]));
      assert x == [x[0]] + x[1..];
    } else {
      assert x == [x[0]];
    }
  }

  lemma FirstField(f: (string, char), fields: seq<(string, char)>, last: string)
    requires ValidFields(fields) && AllDigits(f.0) && |f.0| < 256 && !IsDigit(f.1)
    ensures ValidFields([f] + fields) && Values([f] + fields, last) == [U8(Value(f.0))] + Values(fields, last)
  {
    assert ([f] + fields)[1..] == fields;
  }

  /** Every printed address is read back exactly, octet by octet. */
  lemma DottedRoundTrip(x: seq<nat>)
    requires x != [] && forall i | 0 <= i < |x| :: x[i] < 256
    ensures Octets(Some(PrintDotted(x)), |x|) == Some(x)
  {
    PrintedFields(x);
    ReadFields(DottedFields(x), Decimal(x[|x| - 1]), x);
  }

  lemma ReadFields(fields: seq<(string, char)>, last: string, x: seq<nat>)
    requires ValidFields(fields) && AllDigits(last) && Values(fields, last) == x && |x| == |fields| + 1
    ensures Octets(Some(Joined(fields, last)), |x|) == Some(x)
  {
    EveryField(fields, last, []);
    assert last + [] == last;
  }

  /** Number of characters that are not digits. */
  function Separators(s: string): nat {
    if s == [] then 0 else (if IsDigit(s[0]) then 0 else 1) + Separators(s[1..])
  }

  lemma {:induction false} SkipRun(s: string)
    ensures Separators(s) == Separators(s[RunLength(s)..])
  {
    if s != [] && IsDigit(s[0]) {
      SkipRun(s[1..]);
      assert s[1..][RunLength(s[1..])..] == s[RunLength(s)..];
    } else {
      assert s[0..] == s;
    }
  }

  /** No run of digits is longer than the eight-bit length can count. */
  ghost predicate ShortRuns(s: string) {
    forall i | 0 <= i <= |s| :: RunLength(s[i..]) < 256
  }

  lemma ShortRunsFrom(s: string, k: nat)
    requires ShortRuns(s) && k <= |s|
    ensures ShortRuns(s[k..])
  {
    forall i | 0 <= i <= |s[k..]| ensures RunLength(s[k..][i..]) < 256 {
      assert s[k..][i..] == s[k + i..];
    }
  }

  /** Pointer moves that stay inside the text: one for every separator, and one more for every 256 digits of a run,
      since the length of a longer run wraps and the pointer lands inside it. */
  function Moves(s: string): nat
    decreases |s|
  {
    var n := RunLength(s);
    n / 256 + if n == |s| then 0 else 1 + Moves(s[n + 1..])
  }

  /** A move inside a run of 256 or more digits uses up one of its extra moves. */
  lemma LongMove(s: string)
    requires RunLength(s) >= 256
    ensures Stride(s) <= |s| && Moves(s) == 1 + Moves(s[Stride(s)..])
  {
    var n, u := RunLength(s), Stride(s);
    U8IsMod(n);
    SuffixRun(s, u);
    assert (n - u) / 256 == n / 256 - 1;
    if n < |s| {
      assert s[u..][n - u + 1..] == s[n + 1..];
    }
  }

  lemma SuffixRun(s: string, u: nat)
    requires u <= RunLength(s)
    ensures RunLength(s[u..]) == RunLength(s) - u
  {
    RunIsDigits(s);
    assert forall i | 0 <= i < RunLength(s) - u :: s[u..][i] == s[u + i];
    RunIsUnique(s[u..], RunLength(s) - u);
  }

  /** Either way a move that stays inside the text uses up one of its moves. */
  lemma OneMove(s: string)
    ensures Stride(s) <= |s| <==> Moves(s) > 0
    ensures Stride(s) <= |s| ==> Moves(s) == 1 + Moves(s[Stride(s)..])
  {
    if RunLength(s) >= 256 {
      LongMove(s);
    }
  }

  lemma OctetsStep(s: string, k: nat)
    requires 0 < k
    ensures Octets(Some(s), k).Some? <==> Octets(Advance(s, Stride(s)), k - 1).Some?
  {
  }

  /** Whatever the text, the loop for `k` octets stays inside it if and only if it has a move for each octet but the
      last. */
  lemma {:induction false} InBoundsExactly(s: string, k: nat)
    requires 0 < k
    ensures Octets(Some(s), k).Some? <==> Moves(s) >= k - 1
    decreases k
  {
    var u := Stride(s);
    OctetsStep(s, k);
    OneMove(s);
    if k > 1 && u <= |s| {
      InBoundsExactly(s[u..], k - 1);
    }
  }

  /** Without a run of 256 digits the moves are the separators. */
  lemma {:induction false} MovesAreSeparators(s: string)
    requires ShortRuns(s)
    ensures Moves(s) == Separators(s)
    decreases |s|
  {
    var n := RunLength(s);
    RunIsDigits(s);
    SkipRun(s);
    assert s[0..] == s;
    if n < |s| {
      ShortRunsFrom(s, n + 1);
      MovesAreSeparators(s[n + 1..]);
      assert s[n..][1..] == s[n + 1..];
    }
  }
}
