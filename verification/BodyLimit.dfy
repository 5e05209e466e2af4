/** The limit on request bodies: the announced length, then the bytes that really arrive. */
module BodyLimit {
  import opened Decimal

  // ---- the Content-Length test

  /** What `str.strip` removes from a header value (which is decoded as Latin-1). */
  predicate IsSpace(c: char) {
    '\t' <= c <= '\r' || 0x1c as char <= c <= ' ' || c == 0x85 as char || c == 0xa0 as char
  }

  function StripLeft(s: string): string {
    if s != "" && IsSpace(s[0]) then StripLeft(s[1..]) else s
  }

  function StripRight(s: string): string {
    if s != "" && IsSpace(s[|s| - 1]) then StripRight(s[..|s| - 1]) else s
  }

  function Strip(s: string): string {
    StripRight(StripLeft(s))
  }

  function StripZeros(s: string): string {
    if s != "" && s[0] == '0' then StripZeros(s[1..]) else s
  }

  /** Lexicographic order of strings. */
  predicate Above(a: string, b: string) {
    a != "" && (b == "" || a[0] > b[0] || (a[0] == b[0] && Above(a[1..], b[1..])))
  }

  /** The middleware's test, which never converts the digits to a number. */
  predicate AnnouncesTooMuch(value: string, limit: nat) {
    var digits, maximum := StripZeros(Strip(value)), ToDecimal(limit);
    && digits != "" && AllDigits(digits)
    && (|digits| > |maximum| || (|digits| == |maximum| && Above(digits, maximum)))
  }

  function Pow10(n: nat): nat {
    if n == 0 then 1 else 10 * Pow10(n - 1)
  }

  lemma {:induction false} FirstDigitCounts(s: string)
    requires AllDigits(s) && s != ""
    ensures ValueOf(s) == DigitValue(s[0]) * Pow10(|s| - 1) + ValueOf(s[1..])
    decreases |s|
  {
    if |s| == 1 {
      assert s[..0] == "" && s[1..] == "" && ValueOf(s) == 10 * ValueOf("") + DigitValue(s[0]);
    } else {
      var front, tail := s[..|s| - 1], s[1..];
      FirstDigitCounts(front);
      assert front[1..] == tail[..|tail| - 1];
      assert ValueOf(tail) == 10 * ValueOf(front[1..]) + DigitValue(s[|s| - 1]);
      Shift(DigitValue(s[0]), Pow10(|front| - 1));
    }
  }

  lemma Shift(d: int, p: int)
    ensures 10 * (d * p) == d * (10 * p)
  {
  }

  lemma {:induction false} ValueBound(s: string)
    requires AllDigits(s)
    ensures ValueOf(s) < Pow10(|s|)
    decreases |s|
  {
    if s != "" {
      DigitRoundTrip(s[|s| - 1]);
      ValueBound(s[..|s| - 1]);
    }
  }

  lemma LeadingDigitBound(s: string)
    requires AllDigits(s) && s != "" && s[0] != '0'
    ensures ValueOf(s) >= Pow10(|s| - 1)
  {
  }

  lemma AtLeastOnce(d: nat, p: nat)
    requires d >= 1
    ensures d * p >= p
  {
  }

  lemma {:induction false} Pow10Grows(m: nat, n: nat)
    requires m <= n
    ensures Pow10(m) <= Pow10(n)
    decreases n
  {
    if m < n { Pow10Grows(m, n - 1); }
  }

  /** Among numerals of one length, lexicographic order is the order of the numbers. */
  lemma {:induction false} SameLengthOrder(a: string, b: string)
    requires AllDigits(a) && AllDigits(b) && |a| == |b|
    ensures Above(a, b) <==> ValueOf(a) > ValueOf(b)
    decreases |a|
  {
    if a != "" {
      FirstDigitCounts(a);
      FirstDigitCounts(b);
      DigitRoundTrip(a[0]);
      DigitRoundTrip(b[0]);
      ValueBound(a[1..]);
      ValueBound(b[1..]);
      var p := Pow10(|a| - 1);
      if a[0] == b[0] {
        SameLengthOrder(a[1..], b[1..]);
      } else if a[0] > b[0] {
        Carry(DigitValue(a[0]), DigitValue(b[0]), p);
      } else {
        Carry(DigitValue(b[0]), DigitValue(a[0]), p);
      }
    }
  }

  lemma Carry(more: int, less: int, p: nat)
    requires more >= less + 1
    ensures more * p >= less * p + p
  {
    assert more * p == less * p + (more - less) * p;
    AtLeastOnce(more - less, p);
  }

  lemma {:induction false} ZerosDoNotCount(s: string)
    ensures AllDigits(StripZeros(s)) <==> AllDigits(s)
    ensures AllDigits(s) ==> ValueOf(StripZeros(s)) == ValueOf(s)
    ensures StripZeros(s) != "" ==> StripZeros(s)[0] != '0'
    decreases |s|
  {
    if s != "" && s[0] == '0' {
      ZerosDoNotCount(s[1..]);
      if AllDigits(s[1..]) {
        assert forall i :: 0 <= i < |s| ==> s[i] == if i == 0 then '0' else s[1..][i - 1];
        FirstDigitCounts(s);
      } else {
        var i :| 0 <= i < |s[1..]| && !IsDigit(s[1..][i]);
        assert !IsDigit(s[i + 1]);
      }
    }
  }

  /** Length first, then lexicographic order: on numerals without leading zeros this is the
      order of the numbers. */
  lemma NumeralOrder(a: string, b: string)
    requires AllDigits(a) && AllDigits(b) && a != "" && b != "" && a[0] != '0' && (b[0] != '0' || |b| == 1)
    ensures (|a| > |b| || (|a| == |b| && Above(a, b))) <==> ValueOf(a) > ValueOf(b)
  {
    ValueBound(a);
    ValueBound(b);
    LeadingDigitBound(a);
    if |a| > |b| {
      Pow10Grows(|b|, |a| - 1);
    } else if |a| == |b| {
      SameLengthOrder(a, b);
    } else {
      LeadingDigitBound(b);
      Pow10Grows(|a|, |b| - 1);
    }
  }

  ghost predicate AllSpace(s: string) {
    forall i :: 0 <= i < |s| ==>
      s[i] as int in {9, 10, 11, 12, 13, 28, 29, 30, 31, 32, 133, 160}
  }

  /** `value` is, between white space, an ASCII numeral of a number above the limit. */
  ghost predicate IsLarger(value: string, limit: nat) {
    exists before, numeral, after :: IsPadded(value, before, numeral, after) && ValueOf(numeral) > limit
  }

  ghost predicate IsPadded(value: string, before: string, numeral: string, after: string) {
    value == before + numeral + after && AllSpace(before) && AllSpace(after) && AllDigits(numeral)
  }

  lemma {:induction false} StripLeftRemovesSpace(s: string) returns (before: string)
    ensures s == before + StripLeft(s) && AllSpace(before)
    ensures StripLeft(s) != "" ==> !IsSpace(StripLeft(s)[0])
    decreases |s|
  {
    before := "";
    if s != "" && IsSpace(s[0]) {
      var more := StripLeftRemovesSpace(s[1..]);
      before := [s[0]] + more;
      assert s == [s[0]] + s[1..];
    }
  }

  lemma {:induction false} StripRightRemovesSpace(s: string) returns (after: string)
    ensures s == StripRight(s) + after && AllSpace(after)
    ensures StripRight(s) != "" ==> !IsSpace(StripRight(s)[|StripRight(s)| - 1])
    decreases |s|
  {
    after := "";
    if s != "" && IsSpace(s[|s| - 1]) {
      var more := StripRightRemovesSpace(s[..|s| - 1]);
      after := more + [s[|s| - 1]];
      assert s == s[..|s| - 1] + [s[|s| - 1]];
    }
  }

  lemma {:induction false} StripLeftOfPadded(before: string, rest: string)
    requires AllSpace(before) && rest != "" && IsDigit(rest[0])
    ensures StripLeft(before + rest) == rest
    decreases |before|
  {
    if before == "" {
      assert before + rest == rest;
    } else {
      assert (before + rest)[1..] == before[1..] + rest;
      StripLeftOfPadded(before[1..], rest);
    }
  }

  lemma {:induction false} StripRightOfPadded(rest: string, after: string)
    requires AllSpace(after) && rest != "" && IsDigit(rest[|rest| - 1])
    ensures StripRight(rest + after) == rest
    decreases |after|
  {
    if after == "" {
      assert rest + after == rest;
    } else {
      assert (rest + after)[..|rest + after| - 1] == rest + after[..|after| - 1];
      StripRightOfPadded(rest, after[..|after| - 1]);
    }
  }

  lemma LargerExactlyStripped(value: string, limit: nat)
    ensures IsLarger(value, limit) <==> AllDigits(Strip(value)) && ValueOf(Strip(value)) > limit
  {
    var before := StripLeftRemovesSpace(value);
    var after := StripRightRemovesSpace(StripLeft(value));
    if AllDigits(Strip(value)) && ValueOf(Strip(value)) > limit {
      assert before + (Strip(value) + after) == before + Strip(value) + after;
      assert IsPadded(value, before, Strip(value), after);
    }
    if b, n, a :| IsPadded(value, b, n, a) && ValueOf(n) > limit {
      assert value == b + (n + a) && (n + a)[0] == n[0];
      StripLeftOfPadded(b, n + a);
      StripRightOfPadded(n, a);
    }
  }

  /** The test rejects exactly the values that are, between white space, an ASCII numeral of a
      number above the limit; leading zeros make no difference. */
  lemma RejectsExactlyLargerNumbers(value: string, limit: nat)
    ensures AnnouncesTooMuch(value, limit) <==> IsLarger(value, limit)
  {
    LargerExactlyStripped(value, limit);
    var stripped := Strip(value);
    var digits := StripZeros(stripped);
    ZerosDoNotCount(stripped);
    DecimalRoundTrip(limit);
    if AllDigits(digits) && digits != "" {
      LimitNumeral(limit);
      NumeralOrder(digits, ToDecimal(limit));
    }
  }

  lemma LimitNumeral(limit: nat)
    ensures ToDecimal(limit) != "" && (ToDecimal(limit)[0] != '0' || |ToDecimal(limit)| == 1)
  {
    DecimalRoundTrip(limit);
  }

  // ---- the bytes that arrive

  datatype Message = Body(bytes: seq<bv8>) | Disconnect

  function Size(messages: seq<Message>): nat {
    if messages == [] then 0
    else Size(messages[..|messages| - 1]) + SizeOf(messages[|messages| - 1])
  }

  function SizeOf(message: Message): nat {
    if message.Body? then |message.bytes| else 0
  }

  datatype Received = Passed(message: Message) | TooLarge

  /** The wrapped `receive` of one request; `arrived` is everything the server delivered and
      `handed` what the application got. */
  class LimitedReceive {
    const limit: nat
    var received: nat
    ghost var arrived: seq<Message>
    ghost var handed: seq<Message>

    ghost predicate Valid()
      reads this
    {
      received == Size(arrived) && Size(handed) <= limit && (received <= limit ==> handed == arrived)
    }

    constructor (limit: nat)
      ensures Valid() && this.limit == limit && arrived == [] && handed == []
    {
      this.limit, received, arrived, handed := limit, 0, [], [];
    }

    /** The application never gets more than `limit` bytes, however the body is cut into
        chunks, and it gets every byte while no more than `limit` have arrived. */
    method Receive(message: Message) returns (result: Received)
      requires Valid()
      modifies this
      ensures Valid() && arrived == old(arrived) + [message]
      ensures result.TooLarge? <==> message.Body? && Size(arrived) > limit
      ensures result.Passed? ==> result.message == message && handed == old(handed) + [message]
      ensures result.TooLarge? ==> handed == old(handed)
    {
      arrived := arrived + [message];
      SizeOfExtended(old(arrived), message);
      SizeOfExtended(handed, message);
      if message.Body? {
        received := received + |message.bytes|;
        if received > limit { return TooLarge; }
      }
      handed := handed + [message];
      result := Passed(message);
    }
  }

  lemma SizeOfExtended(messages: seq<Message>, message: Message)
    ensures Size(messages + [message]) == Size(messages) + SizeOf(message)
  {
  }

  datatype Verdict = Served | Rejected

  ghost predicate LargerAnnounced(contentLengths: seq<string>, limit: nat) {
    exists i :: 0 <= i < |contentLengths| && IsLarger(contentLengths[i], limit)
  }

  /** One request through the middleware: `contentLengths` are the header values, `messages`
      what the server delivers; `seen` is what the application reads. */
  method Serve(verb: string, contentLengths: seq<string>, limit: nat, messages: seq<Message>)
    returns (verdict: Verdict, seen: seq<Message>)
    ensures LargerAnnounced(contentLengths, limit) ==> verdict == Rejected && seen == []
    ensures verb in ["POST", "PUT", "PATCH", "DELETE"] ==> Size(seen) <= limit
    ensures verdict == Served ==> seen == messages
    ensures verdict == Rejected ==> LargerAnnounced(contentLengths, limit) || Size(messages) > limit
  {
    seen := [];
    for i := 0 to |contentLengths|
      invariant forall j :: 0 <= j < i ==> !AnnouncesTooMuch(contentLengths[j], limit)
    {
      RejectsExactlyLargerNumbers(contentLengths[i], limit);
      if AnnouncesTooMuch(contentLengths[i], limit) { return Rejected, []; }
    }
    forall i | 0 <= i < |contentLengths| ensures !IsLarger(contentLengths[i], limit) {
      RejectsExactlyLargerNumbers(contentLengths[i], limit);
    }
    if verb !in ["POST", "PUT", "PATCH", "DELETE"] { return Served, messages; }
    var receive := new LimitedReceive(limit);
    for i := 0 to |messages|
      invariant receive.Valid() && receive.limit == limit && receive.arrived == messages[..i] && receive.handed == seen
      invariant seen == messages[..i]
    {
      assert messages[..i + 1] == messages[..i] + [messages[i]];
      var result := receive.Receive(messages[i]);
      if result.TooLarge? {
        SizeGrows(messages, i + 1);
        return Rejected, seen;
      }
      seen := seen + [result.message];
    }
    verdict := Served;
  }

  lemma {:induction false} SizeGrows(messages: seq<Message>, n: nat)
    requires n <= |messages|
    ensures Size(messages[..n]) <= Size(messages)
    decreases |messages| - n
  {
    if n < |messages| {
      assert messages[..n + 1][..n] == messages[..n];
      SizeGrows(messages, n + 1);
    } else {
      assert messages[..n] == messages;
    }
  }
}
