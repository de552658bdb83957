/**
 * The drain loop of the topic dump. The consumer is replaced by the sequence
 * of outcomes its successive one-second polls would return; running off the
 * end of that sequence counts as a poll that returned nothing. Each delivered
 * message becomes one record (one line of the `.jsonl` file).
 */
module DumpDrain {
  import opened Wrappers
  import Stats

  /** The raw bytes of a key or value, as far as `.decode("utf-8")` is
      concerned: bytes that are valid UTF-8, with the text they spell (empty
      bytes are `Utf8([])`), or bytes that are not. Invalid UTF-8 always has
      at least one byte. */
  datatype Payload = Utf8(text: string) | NotUtf8

  /** A delivered message. Key and value are the raw payloads, `None` when the
      broker sent none; the timestamp is the client's (type, value) pair. */
  datatype Message = Message(
    topic: string, partition: int, offset: int,
    key: Option<Payload>, value: Option<Payload>, timestamp: (int, int))

  /** What one `poll(1.0)` returns: a message, a message carrying an error, or nothing. */
  datatype Poll = Delivered(msg: Message) | Errored(reason: string) | Nothing

  /** One line of the dump file, before JSON encoding. */
  datatype Record = Record(
    topic: string, partition: int, offset: int,
    key: Option<string>, value: Option<string>, timestamp: int)

  /** Why `dump_messages` raises: the `UnicodeDecodeError` of the first
      message whose key or value is not UTF-8. */
  datatype DrainError = NotUtf8Payload(msg: Message)

  /** `x.decode("utf-8") if x else None` does not raise: the field is missing,
      or its bytes (possibly none) are UTF-8. */
  predicate Decodes(x: Option<Payload>) {
    x.None? || x.value.Utf8?
  }

  /** Both the key and the value of the message decode. */
  predicate Readable(m: Message) {
    Decodes(m.key) && Decodes(m.value)
  }

  /** `x.decode("utf-8") if x else None` on a field that decodes: missing and
      empty both become null. */
  function Field(x: Option<Payload>): (r: Option<string>)
    requires Decodes(x)
    ensures r.None? <==> x.None? || x.value.text == []
    ensures r.Some? ==> x == Some(Utf8(r.value))
  {
    match x
    case Some(b) => if b.text == [] then None else Some(b.text)
    case None => None
  }

  function RecordOf(m: Message): Record
    requires Readable(m)
  {
    Record(m.topic, m.partition, m.offset, Field(m.key), Field(m.value), m.timestamp.1)
  }

  /** Shaping is idempotent on the text it keeps: a recorded key or value is
      never empty, and shaping its own bytes again gives it back. */
  lemma FieldNormal(x: Option<Payload>)
    requires Decodes(x)
    ensures Field(x).Some? ==> Field(x).value != [] && Field(Some(Utf8(Field(x).value))) == Field(x)
  {
  }

  // ---------------------------------------------------------------------
  // The reference reading of the loop, in three steps.
  // ---------------------------------------------------------------------

  /** The polls made before the first empty one. */
  function UntilNothing(polls: seq<Poll>): (r: seq<Poll>)
    ensures |r| <= |polls| && r == polls[..|r|]
    ensures forall i :: 0 <= i < |r| ==> !r[i].Nothing?
    ensures |r| < |polls| ==> polls[|r|].Nothing?
  {
    if polls == [] || polls[0].Nothing? then []
    else [polls[0]] + UntilNothing(polls[1..])
  }

  /** The delivered messages among some polls, in order; errors are dropped. */
  function MessagesOf(polls: seq<Poll>): (ms: seq<Message>)
    ensures |ms| <= |polls|
  {
    if polls == [] then []
    else (if polls[0].Delivered? then [polls[0].msg] else []) + MessagesOf(polls[1..])
  }

  /** The effective cap: `max_messages` is falsy for `None` and `0`; a
      negative cap is reached by the first message. */
  function CapOf(maxMessages: Option<int>): Option<nat> {
    match maxMessages
    case None => None
    case Some(m) => if m == 0 then None else if m < 0 then Some(1) else Some(m)
  }

  /** The first `cap` messages, or all of them when there is no cap. */
  function Cut(ms: seq<Message>, cap: Option<nat>): seq<Message> {
    match cap
    case None => ms
    case Some(k) => if |ms| <= k then ms else ms[..k]
  }

  /** The messages the loop reads. */
  function Drained(polls: seq<Poll>, maxMessages: Option<int>): seq<Message> {
    Cut(MessagesOf(UntilNothing(polls)), CapOf(maxMessages))
  }

  function Records(ms: seq<Message>): (rs: seq<Record>)
    requires forall i :: 0 <= i < |ms| ==> Readable(ms[i])
    ensures |rs| == |ms|
  {
    seq(|ms|, i requires 0 <= i < |ms| => RecordOf(ms[i]))
  }

  /** Position of the first message whose key or value does not decode (|ms| if none). */
  function FirstUnreadable(ms: seq<Message>): (k: nat)
    ensures k <= |ms|
    ensures forall j :: 0 <= j < k ==> Readable(ms[j])
    ensures k < |ms| ==> !Readable(ms[k])
  {
    if ms == [] || !Readable(ms[0]) then 0 else 1 + FirstUnreadable(ms[1..])
  }

  /** The records written before the loop stops or raises: one per drained
      message up to the first one that does not decode. */
  function Written(polls: seq<Poll>, maxMessages: Option<int>): (rs: seq<Record>) {
    var ms := Drained(polls, maxMessages);
    var k := FirstUnreadable(ms);
    assert forall j :: 0 <= j < k ==> ms[..k][j] == ms[j];
    Records(ms[..k])
  }

  /** What `dump_messages` promises after making `polled` polls, writing
      `lines` and returning `r`: the lines are the records of the drained
      messages up to the first one whose key or value does not decode; it
      succeeds, returning the line count, exactly when there is no such
      message, having read precisely the drained messages; otherwise it fails
      on that message, which the last poll delivered. It never writes more
      than the cap; it stops at the poll that reaches the cap, and short of
      the cap at the first empty poll (or when the polls run out). */
  predicate DrainSpec(polls: seq<Poll>, maxMessages: Option<int>, r: Result<nat, DrainError>, lines: seq<Record>, polled: nat) {
    var ms := Drained(polls, maxMessages);
    var k := FirstUnreadable(ms);
    var u := UntilNothing(polls);
    var cap := CapOf(maxMessages);
    && polled <= |polls|
    && lines == Written(polls, maxMessages)
    && (r.Success? <==> k == |ms|)
    && (r.Success? ==> r.value == |lines| == |ms| && MessagesOf(polls[..polled]) == ms)
    && (r.Failure? ==>
      && r.error == NotUtf8Payload(ms[k])
      && polled > 0 && polls[polled - 1] == Delivered(ms[k])
      && MessagesOf(polls[..polled]) == ms[..k + 1])
    && (cap.Some? ==> |lines| <= cap.value)
    && (r.Success? && cap.Some? && |lines| == cap.value ==> polled > 0 && polls[polled - 1].Delivered?)
    && (r.Success? && (cap.None? || |lines| < cap.value) ==>
      polled == (if |u| < |polls| then |u| + 1 else |polls|))
  }

  /** `dump_messages`: polls until nothing comes back or the cap is reached,
      skipping errored polls, and writes one record per delivered message;
      decoding a key or value that is not UTF-8 raises. `polled` is the
      number of polls made, `lines` what reached the file. */
  method DumpMessages(polls: seq<Poll>, maxMessages: Option<int>)
    returns (r: Result<nat, DrainError>, lines: seq<Record>, polled: nat)
    ensures DrainSpec(polls, maxMessages, r, lines, polled)
  {
    var cap := CapOf(maxMessages);
    var count := 0;
    lines, polled, r := [], 0, Success(0);
    ghost var read: seq<Message> := [];
    ghost var stop := RanOut;
    ghost var n := 0;
    while true
      invariant polled <= |polls| && read == MessagesOf(polls[..polled])
      invariant forall i :: 0 <= i < polled ==> !polls[i].Nothing?
      invariant AllReadable(read) && lines == Records(read)
      invariant count == |lines| && (cap.Some? ==> count < cap.value)
      decreases |polls| - polled
    {
      if polled == |polls| {
        r, stop, n := Success(count), RanOut, polled;
        break;
      }
      var p := polls[polled];
      match p {
        case Nothing =>
          r, stop, n := Success(count), PolledNothing, polled;
          polled := polled + 1;
          break;
        case Errored(_) =>
          MessagesSnoc(polls, polled);
          polled := polled + 1;
        case Delivered(m) =>
          if !Readable(m) {
            r, stop, n := Failure(NotUtf8Payload(m)), Raised, polled;
            polled := polled + 1;
            break;
          }
          MessagesSnoc(polls, polled);
          ReadableSnoc(read, m);
          read := read + [m];
          lines := lines + [RecordOf(m)];
          count := count + 1;
          polled := polled + 1;
          if cap.Some? && count >= cap.value {
            r, stop, n := Success(count), Capped, polled;
            break;
          }
      }
    }
    Conclude(polls, maxMessages, stop, n, read, lines, r, polled);
  }

  /** Why the loop stopped: the polls ran out, a poll returned nothing, the
      cap was reached, or decoding raised. */
  datatype Stop = RanOut | PolledNothing | Capped | Raised

  /** The loop's state when it stops, `n` polls in (not counting the poll
      that returned nothing or raised), gives everything `dump_messages`
      promises. */
  lemma Conclude(polls: seq<Poll>, maxMessages: Option<int>, stop: Stop, n: nat,
                 read: seq<Message>, lines: seq<Record>, r: Result<nat, DrainError>, polled: nat)
    requires n <= |polls| && (forall i :: 0 <= i < n ==> !polls[i].Nothing?)
    requires read == MessagesOf(polls[..n]) && AllReadable(read) && lines == Records(read)
    requires stop.RanOut? ==> polled == n == |polls| && r == Success(|lines|)
    requires stop.PolledNothing? ==> n < |polls| && polls[n].Nothing? && polled == n + 1 && r == Success(|lines|)
    requires stop.Capped? ==>
      && 0 < n && polls[n - 1].Delivered? && polled == n && r == Success(|lines|)
      && CapOf(maxMessages).Some? && |lines| == CapOf(maxMessages).value
    requires stop.Raised? ==>
      && n < |polls| && polls[n].Delivered? && !Readable(polls[n].msg)
      && polled == n + 1 && r == Failure(NotUtf8Payload(polls[n].msg))
    requires !stop.Capped? ==> CapOf(maxMessages).Some? ==> |lines| < CapOf(maxMessages).value
    ensures DrainSpec(polls, maxMessages, r, lines, polled)
  {
    match stop
    case RanOut => EndOfPolls(polls, maxMessages, read, lines, r);
    case PolledNothing => EmptyPoll(polls, maxMessages, n, read, lines, r);
    case Capped => CapHit(polls, maxMessages, n, read, lines, r);
    case Raised => Undecodable(polls, maxMessages, n, read, lines, r);
  }

  /** The polls run out with no empty poll and the cap not reached. */
  lemma EndOfPolls(polls: seq<Poll>, maxMessages: Option<int>, read: seq<Message>, lines: seq<Record>, r: Result<nat, DrainError>)
    requires forall i :: 0 <= i < |polls| ==> !polls[i].Nothing?
    requires read == MessagesOf(polls[..|polls|]) && AllReadable(read) && lines == Records(read)
    requires CapOf(maxMessages).Some? ==> |lines| < CapOf(maxMessages).value
    requires r == Success(|lines|)
    ensures DrainSpec(polls, maxMessages, r, lines, |polls|)
  {
    assert polls[..|polls|] == polls;
    UntilNothingAll(polls);
    CapNotReached(polls, maxMessages);
    WrittenAll(polls, maxMessages, |polls|);
  }

  /** Poll `n` returns nothing before the cap is reached. */
  lemma EmptyPoll(polls: seq<Poll>, maxMessages: Option<int>, n: nat, read: seq<Message>, lines: seq<Record>, r: Result<nat, DrainError>)
    requires n < |polls| && polls[n].Nothing?
    requires forall i :: 0 <= i < n ==> !polls[i].Nothing?
    requires read == MessagesOf(polls[..n]) && AllReadable(read) && lines == Records(read)
    requires CapOf(maxMessages).Some? ==> |lines| < CapOf(maxMessages).value
    requires r == Success(|lines|)
    ensures DrainSpec(polls, maxMessages, r, lines, n + 1)
  {
    MessagesSnoc(polls, n);
    UntilNothingAt(polls, n);
    CapNotReached(polls, maxMessages);
    WrittenAll(polls, maxMessages, n);
  }

  /** Poll `n - 1` delivers the message that reaches the cap. */
  lemma CapHit(polls: seq<Poll>, maxMessages: Option<int>, n: nat, read: seq<Message>, lines: seq<Record>, r: Result<nat, DrainError>)
    requires 0 < n <= |polls| && polls[n - 1].Delivered? && CapOf(maxMessages).Some?
    requires forall i :: 0 <= i < n ==> !polls[i].Nothing?
    requires read == MessagesOf(polls[..n]) && AllReadable(read) && lines == Records(read)
    requires |lines| == CapOf(maxMessages).value
    requires r == Success(|lines|)
    ensures DrainSpec(polls, maxMessages, r, lines, n)
  {
    CapReached(polls, n, maxMessages);
    WrittenAll(polls, maxMessages, n);
  }

  /** Poll `n` delivers a message whose key or value is not UTF-8. */
  lemma Undecodable(polls: seq<Poll>, maxMessages: Option<int>, n: nat, read: seq<Message>, lines: seq<Record>, r: Result<nat, DrainError>)
    requires n < |polls| && polls[n].Delivered? && !Readable(polls[n].msg)
    requires forall i :: 0 <= i < n ==> !polls[i].Nothing?
    requires read == MessagesOf(polls[..n]) && AllReadable(read) && lines == Records(read)
    requires CapOf(maxMessages).Some? ==> |lines| < CapOf(maxMessages).value
    requires r == Failure(NotUtf8Payload(polls[n].msg))
    ensures DrainSpec(polls, maxMessages, r, lines, n + 1)
  {
    MessagesSnoc(polls, n);
    WrittenUntil(polls, maxMessages, n);
  }

  /** Every message's key and value decode. */
  predicate AllReadable(ms: seq<Message>) {
    forall j :: 0 <= j < |ms| ==> Readable(ms[j])
  }

  /** Appending a readable message keeps the records in step. */
  lemma ReadableSnoc(ms: seq<Message>, m: Message)
    requires AllReadable(ms) && Readable(m)
    ensures AllReadable(ms + [m]) && Records(ms + [m]) == Records(ms) + [RecordOf(m)]
  {
  }

  /** When the loop ends normally after `n` polls, it has written every
      drained message. */
  lemma WrittenAll(polls: seq<Poll>, maxMessages: Option<int>, n: nat)
    requires n <= |polls|
    requires Drained(polls, maxMessages) == MessagesOf(polls[..n])
    requires AllReadable(MessagesOf(polls[..n]))
    ensures FirstUnreadable(Drained(polls, maxMessages)) == |Drained(polls, maxMessages)|
    ensures Written(polls, maxMessages) == Records(MessagesOf(polls[..n]))
  {
    var ms := Drained(polls, maxMessages);
    AllReadableFirst(ms);
    assert ms[..|ms|] == ms;
  }

  lemma AllReadableFirst(ms: seq<Message>)
    requires AllReadable(ms)
    ensures FirstUnreadable(ms) == |ms|
  {
  }

  /** When poll `n` delivers a message that does not decode, it is the first
      such message of the drain, and everything before it was written. */
  lemma WrittenUntil(polls: seq<Poll>, maxMessages: Option<int>, n: nat)
    requires n < |polls| && polls[n].Delivered? && !Readable(polls[n].msg)
    requires forall i :: 0 <= i < n ==> !polls[i].Nothing?
    requires CapOf(maxMessages).Some? ==> |MessagesOf(polls[..n])| < CapOf(maxMessages).value
    requires AllReadable(MessagesOf(polls[..n]))
    requires MessagesOf(polls[..n + 1]) == MessagesOf(polls[..n]) + [polls[n].msg]
    ensures var ms := Drained(polls, maxMessages); var k := |MessagesOf(polls[..n])|;
      && k < |ms| && FirstUnreadable(ms) == k && ms[k] == polls[n].msg
      && ms[..k + 1] == MessagesOf(polls[..n + 1])
      && Written(polls, maxMessages) == Records(MessagesOf(polls[..n]))
  {
    var before := MessagesOf(polls[..n]);
    PrefixOfDrained(polls, n + 1, maxMessages);
    var ms := Drained(polls, maxMessages);
    var k := |before|;
    assert ms[..k + 1] == before + [polls[n].msg];
    assert ms[k] == ms[..k + 1][k];
    assert forall j :: 0 <= j < k ==> ms[j] == ms[..k + 1][j] == before[j];
    FailsAt(ms, k);
    assert ms[..k] == before;
  }

  /** The first unreadable message is the one after a readable prefix. */
  lemma FailsAt(ms: seq<Message>, k: nat)
    requires k < |ms| && !Readable(ms[k])
    requires forall j :: 0 <= j < k ==> Readable(ms[j])
    ensures FirstUnreadable(ms) == k
  {
  }

  /** Each line the loop writes is the record of the drained message at the
      same position: same topic, partition, offset and timestamp value, and a
      null key (value) exactly when the message's key (value) was missing or
      empty, the decoded text otherwise. */
  lemma WrittenFields(polls: seq<Poll>, maxMessages: Option<int>)
    ensures var ms := Drained(polls, maxMessages); var rs := Written(polls, maxMessages);
      && |rs| <= |ms|
      && forall i :: 0 <= i < |rs| ==>
        && Readable(ms[i])
        && (rs[i].topic, rs[i].partition, rs[i].offset, rs[i].timestamp)
           == (ms[i].topic, ms[i].partition, ms[i].offset, ms[i].timestamp.1)
        && (rs[i].key.None? <==> ms[i].key.None? || ms[i].key.value.text == [])
        && (rs[i].key.Some? ==> ms[i].key == Some(Utf8(rs[i].key.value)))
        && (rs[i].value.None? <==> ms[i].value.None? || ms[i].value.value.text == [])
        && (rs[i].value.Some? ==> ms[i].value == Some(Utf8(rs[i].value.value)))
  {
    var ms := Drained(polls, maxMessages);
    var k := FirstUnreadable(ms);
    forall i | 0 <= i < k ensures Written(polls, maxMessages)[i] == RecordOf(ms[i]) {
      assert ms[..k][i] == ms[i];
    }
  }

  /** Appending one poll appends its message, if any. */
  lemma MessagesSnoc(polls: seq<Poll>, n: nat)
    requires n < |polls|
    ensures MessagesOf(polls[..n + 1]) == MessagesOf(polls[..n]) + (if polls[n].Delivered? then [polls[n].msg] else [])
  {
    MessagesAppend(polls[..n], [polls[n]]);
    assert polls[..n] + [polls[n]] == polls[..n + 1];
  }

  lemma {:induction false} MessagesAppend(a: seq<Poll>, b: seq<Poll>)
    ensures MessagesOf(a + b) == MessagesOf(a) + MessagesOf(b)
  {
    if a == [] {
      assert a + b == b;
    } else {
      var c := a + b;
      assert c[0] == a[0] && c[1..] == a[1..] + b;
      MessagesAppend(a[1..], b);
      var h := if a[0].Delivered? then [a[0].msg] else [];
      assert MessagesOf(c) == h + MessagesOf(a[1..] + b);
      assert MessagesOf(a) == h + MessagesOf(a[1..]);
    }
  }

  lemma UntilNothingAll(polls: seq<Poll>)
    requires forall i :: 0 <= i < |polls| ==> !polls[i].Nothing?
    ensures UntilNothing(polls) == polls
  {
  }

  lemma UntilNothingAt(polls: seq<Poll>, n: nat)
    requires n < |polls| && polls[n].Nothing?
    requires forall i :: 0 <= i < n ==> !polls[i].Nothing?
    ensures UntilNothing(polls) == polls[..n]
  {
  }

  /** Without hitting the cap, the loop has written all messages before the first empty poll. */
  lemma CapNotReached(polls: seq<Poll>, maxMessages: Option<int>)
    requires CapOf(maxMessages).Some? ==> |MessagesOf(UntilNothing(polls))| < CapOf(maxMessages).value
    ensures Drained(polls, maxMessages) == MessagesOf(UntilNothing(polls))
  {
  }

  /** The messages of any run of polls before the first empty one, while the
      cap is not exceeded, are the start of what the loop drains. */
  lemma PrefixOfDrained(polls: seq<Poll>, n: nat, maxMessages: Option<int>)
    requires n <= |polls|
    requires forall i :: 0 <= i < n ==> !polls[i].Nothing?
    requires CapOf(maxMessages).Some? ==> |MessagesOf(polls[..n])| <= CapOf(maxMessages).value
    ensures var m := MessagesOf(polls[..n]); var ms := Drained(polls, maxMessages);
      |m| <= |ms| && ms[..|m|] == m
  {
    var u := UntilNothing(polls);
    var m := MessagesOf(polls[..n]);
    PrefixBeforeNothing(polls, n);
    assert u[..n] == polls[..n];
    assert u == u[..n] + u[n..];
    MessagesAppend(u[..n], u[n..]);
    var all := MessagesOf(u);
    assert all[..|m|] == m;
    PrefixOfPrefix(all, |m|, CapOf(maxMessages));
  }

  /** Cutting at the cap keeps any start no longer than the cap. */
  lemma PrefixOfPrefix(all: seq<Message>, n: nat, cap: Option<nat>)
    requires n <= |all| && (cap.Some? ==> n <= cap.value)
    ensures n <= |Cut(all, cap)| && Cut(all, cap)[..n] == all[..n]
  {
  }

  /** When the cap is hit at poll `n`, the written messages are the first `cap`. */
  lemma CapReached(polls: seq<Poll>, n: nat, maxMessages: Option<int>)
    requires 0 < n <= |polls| && CapOf(maxMessages).Some?
    requires forall i :: 0 <= i < n ==> !polls[i].Nothing?
    requires |MessagesOf(polls[..n])| == CapOf(maxMessages).value
    ensures Drained(polls, maxMessages) == MessagesOf(polls[..n])
  {
    PrefixOfDrained(polls, n, maxMessages);
  }

  /** Polls before any empty one lie inside the reference prefix. */
  lemma PrefixBeforeNothing(polls: seq<Poll>, n: nat)
    requires n <= |polls|
    requires forall i :: 0 <= i < n ==> !polls[i].Nothing?
    ensures n <= |UntilNothing(polls)|
  {
    var u := UntilNothing(polls);
    assert |u| < |polls| ==> polls[|u|].Nothing?;
  }

  /** The loop writes at most as many lines as there are messages before the
      first empty poll, and with no cap it writes them all. */
  lemma DrainedBounds(polls: seq<Poll>, maxMessages: Option<int>)
    ensures |Drained(polls, maxMessages)| <= |MessagesOf(UntilNothing(polls))|
    ensures CapOf(maxMessages).None? ==> Drained(polls, maxMessages) == MessagesOf(UntilNothing(polls))
    ensures CapOf(maxMessages).Some? ==>
      |Drained(polls, maxMessages)| == Stats.MinInt(CapOf(maxMessages).value, |MessagesOf(UntilNothing(polls))|)
  {
  }

  /** Errored polls leave no trace: removing one changes no delivered message. */
  lemma {:induction false} ErrorsSkipped(polls: seq<Poll>, i: nat)
    requires i < |polls| && polls[i].Errored?
    ensures MessagesOf(polls[..i] + polls[i + 1..]) == MessagesOf(polls)
  {
    MessagesAppend(polls[..i], polls[i + 1..]);
    MessagesAppend(polls[..i], polls[i..]);
    assert polls[..i] + polls[i..] == polls;
    assert polls[i..] == [polls[i]] + polls[i + 1..];
    MessagesAppend([polls[i]], polls[i + 1..]);
  }
}
