/** The policy service Postfix asks about each recipient: requests of `key=value` lines on a
    stream, each ended by a blank line and answered by one `action=` line. */
module Policy {
  import opened Wrappers
  import opened Text
  import Address
  import Lookup

  /** The longest line, without its newline, that `StreamReader.readline` hands out. */
  const LINE_LIMIT := 65_536

  // ---------------------------------------------------------------- lines

  /** The next line with its newline, if it has one. */
  function FirstLine(s: string): (line: string)
    ensures line <= s && (s != "" ==> line != "")
    ensures |line| <= |s|
  {
    var end := Find(s, '\n');
    if end < |s| then s[..end + 1] else s
  }

  predicate TooLong(s: string) {
    Find(s, '\n') > LINE_LIMIT
  }

  predicate IsEol(c: char) {
    c == '\r' || c == '\n'
  }

  /** `rstrip("\r\n")`. */
  function DropEol(s: string): (r: string)
    ensures |r| <= |s| && r == s[..|r|]
    ensures r == "" || !IsEol(r[|r| - 1])
    ensures forall i | |r| <= i < |s| :: IsEol(s[i])
  {
    if s != "" && IsEol(s[|s| - 1]) then DropEol(s[..|s| - 1]) else s
  }

  // ---------------------------------------------------------------- requests

  type Attrs = map<string, string>

  /** What one line adds: nothing without a `=`, else the text around the first one. */
  function Absorb(attrs: Attrs, line: string): Attrs {
    var eq := Find(line, '=');
    if eq == |line| then attrs else attrs[Strip(line[..eq]) := Strip(line[eq + 1..])]
  }

  datatype Read =
    | Request(attrs: Attrs, rest: string)
    | NoRequest
    | ReadError

  /** The request that starts at `s`, given the lines already read. */
  function Reading(attrs: Attrs, s: string): (r: Read)
    ensures r.Request? ==> |r.rest| <= |s| && (attrs == map[] ==> |r.rest| < |s|)
    decreases |s|
  {
    if TooLong(s) then ReadError
    else if s == "" then (if attrs == map[] then NoRequest else Request(attrs, ""))
    else
      var line, rest := FirstLine(s), s[|FirstLine(s)|..];
      if DropEol(line) == "" then Request(attrs, rest)
      else Reading(Absorb(attrs, DropEol(line)), rest)
  }

  /** The connection as the handler reads it: `rest` is what Postfix will still have sent when
      it closes its side. */
  class Reader {
    var rest: string

    constructor (stream: string)
      ensures rest == stream
    {
      rest := stream;
    }

    /** `readline`: empty at the end of the stream, None when it raises. */
    method ReadLine() returns (line: Option<string>)
      modifies this
      ensures line == if TooLong(old(rest)) then None else Some(FirstLine(old(rest)))
      ensures line.Some? ==> old(rest) == line.value + rest
    {
      if TooLong(rest) {
        return None;
      }
      line := Some(FirstLine(rest));
      rest := rest[|line.value|..];
    }
  }

  /** `_read_request`: the outer None stands for an exception. */
  method ReadRequest(reader: Reader) returns (r: Option<Option<Attrs>>)
    modifies reader
    ensures var spec := Reading(map[], old(reader.rest));
            && (spec.ReadError? <==> r.None?)
            && (spec.NoRequest? <==> r == Some(None))
            && (spec.Request? ==> r == Some(Some(spec.attrs)) && reader.rest == spec.rest)
  {
    hide Reading, TooLong, FirstLine, DropEol, Strip;
    var attrs: Attrs := map[];
    while true
      invariant Reading(attrs, reader.rest) == Reading(map[], old(reader.rest))
      decreases |reader.rest|
    {
      ReadingUnfolds(attrs, reader.rest);
      var line := reader.ReadLine();
      if line.None? {
        return None;
      }
      if line.value == "" {
        return Some(if attrs == map[] then None else Some(attrs));
      }
      var text := DropEol(line.value);
      if text == "" {
        return Some(Some(attrs));
      }
      var eq := Find(text, '=');
      if eq < |text| {
        attrs := attrs[Strip(text[..eq]) := Strip(text[eq + 1..])];
      }
    }
  }

  /** One line of a request. */
  lemma ReadingUnfolds(attrs: Attrs, s: string)
    ensures TooLong(s) ==> Reading(attrs, s).ReadError?
    ensures FirstLine(s) == "" <==> s == ""
    ensures s == "" ==> Reading(attrs, s) == if attrs == map[] then NoRequest else Request(attrs, "")
    ensures forall rest | s == FirstLine(s) + rest && s != "" && !TooLong(s) ::
              && |rest| < |s|
              && Reading(attrs, s) == if DropEol(FirstLine(s)) == "" then Request(attrs, rest)
                                      else Reading(Absorb(attrs, DropEol(FirstLine(s))), rest)
  {
  }

  // ---------------------------------------------------------------- verdicts

  /** What the lookup table shows one evaluation: the hosts, then the data sources. None where
      a reload raises. */
  datatype Look = Look(hosts: Option<set<string>>, loaded: Option<Lookup.Loaded>)

  const EMPTY_RECIPIENT := "REJECT 550 5.1.1 Empty recipient"
  const UNKNOWN_RECIPIENT := "REJECT 550 5.1.1 Unknown recipient"
  const POLICY_ERROR := "DEFER_IF_PERMIT Mail router policy error"

  /** `_evaluate`; None stands for an exception. */
  function Evaluate(attrs: Attrs, look: Look): Option<string> {
    var recipient := if "recipient" in attrs then Strip(attrs["recipient"]) else "";
    if recipient == "" then Some(EMPTY_RECIPIENT)
    else if look.hosts.None? then None
    else
      match Address.ParseRecipient(recipient, look.hosts.value)
      case None => Some(UNKNOWN_RECIPIENT)
      case Some(p) =>
        if look.loaded.None? then None
        else if Lookup.Resolve(look.loaded.value, p.dsId).None? then Some(UNKNOWN_RECIPIENT)
        else Some("OK")
  }

  /** What is written for a verdict; an exception is answered too, before the connection is
      closed. */
  function Reply(verdict: Option<string>): string {
    "action=" + verdict.UnwrapOr(POLICY_ERROR) + "\n\n"
  }

  /** The replies to the rest `s` of a stream when `n` requests have been answered. */
  function Replies(s: string, looks: nat -> Look, n: nat): seq<string>
    decreases |s|
  {
    if s == "" then []
    else
      match Reading(map[], s)
      case NoRequest => []
      case ReadError => [Reply(None)]
      case Request(attrs, rest) =>
        var verdict := Evaluate(attrs, looks(n));
        if verdict.None? then [Reply(None)] else [Reply(verdict)] + Replies(rest, looks, n + 1)
  }

  /** `_handle_client`: what it writes, one element a reply. `gone(n)`: by the time `n` replies
      have been written, the peer has reset the connection, which ends the conversation. */
  method HandleClient(reader: Reader, looks: nat -> Look, gone: nat -> bool) returns (replies: seq<string>)
    modifies reader
    ensures replies <= Replies(old(reader.rest), looks, 0)
    ensures |replies| < |Replies(old(reader.rest), looks, 0)| ==> gone(|replies|)
    ensures forall k: nat | k < |replies| :: !gone(k)
  {
    hide Reading, Evaluate, Reply, Replies;
    replies := [];
    while reader.rest != ""
      invariant replies + Replies(reader.rest, looks, |replies|) == Replies(old(reader.rest), looks, 0)
      invariant forall k: nat | k < |replies| :: !gone(k)
      decreases |reader.rest|
    {
      if gone(|replies|) {
        return;
      }
      RepliesUnfold(reader.rest, looks, |replies|);
      var request := ReadRequest(reader);
      if request.None? {
        return replies + [Reply(None)];
      }
      if request.value.None? {
        return;
      }
      var verdict := Evaluate(request.value.value, looks(|replies|));
      if verdict.None? {
        return replies + [Reply(None)];
      }
      MoreReplies(replies, Reply(verdict), Replies(reader.rest, looks, |replies| + 1));
      replies := replies + [Reply(verdict)];
    }
    RepliesUnfold("", looks, |replies|);
  }

  lemma MoreReplies(sent: seq<string>, next: string, later: seq<string>)
    ensures sent + ([next] + later) == sent + [next] + later
  {
  }

  lemma RepliesUnfold(s: string, looks: nat -> Look, n: nat)
    ensures var r := Reading(map[], s);
            Replies(s, looks, n) ==
            if s == "" || r.NoRequest? then []
            else if r.ReadError? || Evaluate(r.attrs, looks(n)).None? then [Reply(None)]
            else [Reply(Evaluate(r.attrs, looks(n)))] + Replies(r.rest, looks, n + 1)
  {
    hide Reading, Evaluate, Reply;
  }

  // ---------------------------------------------------------------- the round trip

  /** One `key=value` line; Postfix sends a list of them, each key once. */
  type Field = (string, string)

  predicate NoEol(s: string) {
    forall i | 0 <= i < |s| :: !IsEol(s[i])
  }

  predicate IsLineEnd(eol: string) {
    eol == "\n" || eol == "\r\n"
  }

  predicate PlainField(f: Field) {
    && Trimmed(f.0) && Trimmed(f.1)
    && NoEol(f.0) && NoEol(f.1)
    && '=' !in f.0
  }

  /** The line of the field is within the limit. */
  predicate Fits(f: Field, eol: string) {
    |f.0| + |f.1| + |eol| <= 65_536
  }

  predicate GoodField(f: Field, eol: string) {
    PlainField(f) && Fits(f, eol)
  }

  predicate GoodFields(fields: seq<Field>, eol: string) {
    forall i | 0 <= i < |fields| :: GoodField(fields[i], eol)
  }

  function Line(f: Field, eol: string): string {
    f.0 + "=" + f.1 + eol
  }

  function Lines(fields: seq<Field>, eol: string): string {
    if fields == [] then "" else Line(fields[0], eol) + Lines(fields[1..], eol)
  }

  function Serialize(fields: seq<Field>, eol: string): string {
    Lines(fields, eol) + eol
  }

  function SerializeAll(requests: seq<seq<Field>>, eol: string): string {
    if requests == [] then "" else Serialize(requests[0], eol) + SerializeAll(requests[1..], eol)
  }

  /** The dictionary the fields fill, later ones over earlier ones. */
  function Filled(attrs: Attrs, fields: seq<Field>): Attrs
    decreases |fields|
  {
    if fields == [] then attrs else Filled(attrs[fields[0].0 := fields[0].1], fields[1..])
  }

  /** Every request of a stream, up to its end or a line that is too long. */
  function ReadAll(s: string): seq<Attrs>
    decreases |s|
  {
    match Reading(map[], s)
    case Request(attrs, rest) => [attrs] + ReadAll(rest)
    case _ => []
  }

  lemma FindIs(s: string, c: char, i: nat)
    requires i < |s| && s[i] == c && forall k | 0 <= k < i :: s[k] != c
    ensures Find(s, c) == i
  {
  }

  /** A text without CR or LF comes back from its line. */
  lemma LineReadsBack(text: string, eol: string, rest: string)
    requires NoEol(text) && IsLineEnd(eol)
    ensures TooLong(text + eol + rest) <==> |text| + |eol| > LINE_LIMIT + 1
    ensures FirstLine(text + eol + rest) == text + eol
    ensures DropEol(text + eol) == text
  {
    var s, line := text + eol + rest, text + eol;
    assert line[|line| - 1] == '\n';
    forall k | 0 <= k < |line| - 1
      ensures s[k] == line[k] && s[k] != '\n'
    {
      if k < |text| {
        assert s[k] == text[k];
      }
    }
    FindIs(s, '\n', |line| - 1);
    assert s[..|line|] == line;
    DropEolIs(line, |text|);
    assert line[..|text|] == text;
  }

  lemma {:induction false} DropEolIs(line: string, n: nat)
    requires n <= |line| && forall i | n <= i < |line| :: IsEol(line[i])
    requires n > 0 ==> !IsEol(line[n - 1])
    ensures DropEol(line) == line[..n]
  {
  }

  lemma FieldAbsorbed(attrs: Attrs, f: Field)
    requires '=' !in f.0
    ensures Absorb(attrs, f.0 + "=" + f.1) == attrs[Strip(f.0) := Strip(f.1)]
  {
    hide Strip, Find;
    PartsOf(f.0, f.1);
  }

  lemma PartsOf(key: string, value: string)
    requires '=' !in key
    ensures var text := key + "=" + value;
            Find(text, '=') == |key| && text[..|key|] == key && text[|key| + 1..] == value
  {
    var text := key + "=" + value;
    assert text[|key|] == '=';
    assert forall k | 0 <= k < |key| :: text[k] == key[k];
    FindIs(text, '=', |key|);
  }

  /** Reading a line adds the text around its first `=`, without white space around it. */
  lemma ReadsLine(attrs: Attrs, f: Field, eol: string, rest: string)
    requires NoEol(f.0) && NoEol(f.1) && '=' !in f.0 && Fits(f, eol) && IsLineEnd(eol)
    ensures Reading(attrs, Line(f, eol) + rest) == Reading(attrs[Strip(f.0) := Strip(f.1)], rest)
  {
    var text := f.0 + "=" + f.1;
    assert Line(f, eol) == text + eol;
    assert text + eol != "";
    assert text != "" by { assert text[|f.0|] == '='; }
    NoEolJoined(f.0, f.1);
    hide Reading, TooLong, FirstLine, DropEol, Absorb, Strip, NoEol;
    LineReadsBack(text, eol, rest);
    FieldAbsorbed(attrs, f);
    ReadingUnfolds(attrs, text + eol + rest);
  }

  /** Reading one serialized field adds exactly that field. */
  lemma ReadsField(attrs: Attrs, f: Field, eol: string, rest: string)
    requires GoodField(f, eol) && IsLineEnd(eol)
    ensures Reading(attrs, Line(f, eol) + rest) == Reading(attrs[f.0 := f.1], rest)
  {
    ReadsLine(attrs, f, eol, rest);
    StripTrimmed(f.0);
    StripTrimmed(f.1);
    hide Reading, Line, Strip, Trimmed, NoEol;
  }

  /** A line without a `=` is passed over, unless it is the blank line at the end. */
  lemma SkipsNoise(attrs: Attrs, text: string, eol: string, rest: string)
    requires NoEol(text) && text != "" && '=' !in text && |text| + |eol| <= 65_537 && IsLineEnd(eol)
    ensures Reading(attrs, text + eol + rest) == Reading(attrs, rest)
  {
    LineReadsBack(text, eol, rest);
    assert text + eol != "";
    NothingAbsorbed(attrs, text);
    hide Reading, TooLong, FirstLine, DropEol, Absorb, NoEol;
    ReadingUnfolds(attrs, text + eol + rest);
  }

  lemma NothingAbsorbed(attrs: Attrs, text: string)
    requires '=' !in text
    ensures Absorb(attrs, text) == attrs
  {
    hide Strip;
  }

  lemma NoEolJoined(key: string, value: string)
    requires NoEol(key) && NoEol(value)
    ensures NoEol(key + "=" + value)
  {
  }

  /** The blank line ends the request, however few fields it had. */
  lemma ReadsEnd(attrs: Attrs, eol: string, rest: string)
    requires IsLineEnd(eol)
    ensures Reading(attrs, eol + rest) == Request(attrs, rest)
  {
    assert "" + eol == eol;
    LineReadsBack("", eol, rest);
    hide Reading, TooLong, FirstLine, DropEol, Absorb;
    ReadingUnfolds(attrs, eol + rest);
  }

  /** `_read_request` recovers the fields it was sent and stops right behind them. */
  lemma {:induction false} ReadsFields(attrs: Attrs, fields: seq<Field>, eol: string, rest: string)
    requires GoodFields(fields, eol) && IsLineEnd(eol)
    ensures Reading(attrs, Serialize(fields, eol) + rest) == Request(Filled(attrs, fields), rest)
    decreases |fields|
  {
    hide Reading, Line, GoodField;
    if fields == [] {
      assert Serialize(fields, eol) == eol;
      ReadsEnd(attrs, eol, rest);
    } else {
      var f, tail := fields[0], fields[1..];
      assert Serialize(fields, eol) + rest == Line(f, eol) + (Serialize(tail, eol) + rest);
      ReadsField(attrs, f, eol, Serialize(tail, eol) + rest);
      ReadsFields(attrs[f.0 := f.1], tail, eol, rest);
    }
  }

  /** A line over the limit ends the conversation, wherever it comes in the request. */
  lemma {:induction false} LongLineRaises(attrs: Attrs, fields: seq<Field>, eol: string, rest: string, i: nat)
    requires (forall j | 0 <= j < |fields| :: PlainField(fields[j])) && IsLineEnd(eol)
    requires i < |fields| && !Fits(fields[i], eol)
    ensures Reading(attrs, Serialize(fields, eol) + rest).ReadError?
    decreases |fields|
  {
    hide Reading, Line, PlainField;
    var f, tail := fields[0], fields[1..];
    var later := Serialize(tail, eol) + rest;
    assert Serialize(fields, eol) + rest == Line(f, eol) + later;
    hide Serialize;
    if Fits(f, eol) {
      ReadsField(attrs, f, eol, later);
      LongLineRaises(attrs[f.0 := f.1], tail, eol, rest, i - 1);
    } else {
      LongFieldRaises(attrs, f, eol, later);
    }
  }

  lemma LongFieldRaises(attrs: Attrs, f: Field, eol: string, rest: string)
    requires PlainField(f) && !Fits(f, eol) && IsLineEnd(eol)
    ensures Reading(attrs, Line(f, eol) + rest).ReadError?
  {
    NoEolJoined(f.0, f.1);
    hide Reading, TooLong, FirstLine, DropEol, Absorb, PlainField, NoEol;
    LineReadsBack(f.0 + "=" + f.1, eol, rest);
    ReadingUnfolds(attrs, Line(f, eol) + rest);
  }

  /** A request of plain fields comes back exactly when each of its lines is within the limit;
      otherwise reading raises. */
  lemma RoundTripIff(fields: seq<Field>, eol: string, rest: string)
    requires (forall j | 0 <= j < |fields| :: PlainField(fields[j])) && IsLineEnd(eol)
    ensures var r := Reading(map[], Serialize(fields, eol) + rest);
            && (r == Request(Filled(map[], fields), rest) <==> forall j | 0 <= j < |fields| :: Fits(fields[j], eol))
            && (r != Request(Filled(map[], fields), rest) ==> r.ReadError?)
  {
    if forall j | 0 <= j < |fields| :: Fits(fields[j], eol) {
      hide Reading;
      ReadsFields(map[], fields, eol, rest);
    } else {
      hide Reading;
      var i :| 0 <= i < |fields| && !Fits(fields[i], eol);
      LongLineRaises(map[], fields, eol, rest, i);
    }
  }

  /** A request cut short after a whole line is answered all the same, on the fields that
      arrived. */
  lemma {:induction false} CutRequestIsRead(attrs: Attrs, fields: seq<Field>, eol: string)
    requires GoodFields(fields, eol) && IsLineEnd(eol)
    ensures Reading(attrs, Lines(fields, eol)) ==
            if attrs == map[] && fields == [] then NoRequest else Request(Filled(attrs, fields), "")
    decreases |fields|
  {
    hide Line, GoodField, Reading;
    if fields == [] {
      ReadingUnfolds(attrs, "");
    } else {
      assert fields[0].0 in attrs[fields[0].0 := fields[0].1];
      ReadsField(attrs, fields[0], eol, Lines(fields[1..], eol));
      CutRequestIsRead(attrs[fields[0].0 := fields[0].1], fields[1..], eol);
    }
  }

  predicate LastField(fields: seq<Field>, key: string, i: int) {
    0 <= i < |fields| && fields[i].0 == key && forall j | i < j < |fields| :: fields[j].0 != key
  }

  /** A key that is not sent keeps the value it has. */
  lemma {:induction false} UnsentKept(attrs: Attrs, fields: seq<Field>, key: string)
    requires forall i | 0 <= i < |fields| :: fields[i].0 != key
    ensures key in Filled(attrs, fields) <==> key in attrs
    ensures key in attrs ==> Filled(attrs, fields)[key] == attrs[key]
    decreases |fields|
  {
    if fields != [] {
      UnsentKept(attrs[fields[0].0 := fields[0].1], fields[1..], key);
    }
  }

  /** Where a key is sent more than once the last value counts. */
  lemma {:induction false} LastFieldWins(attrs: Attrs, fields: seq<Field>, key: string, i: nat)
    requires LastField(fields, key, i)
    ensures key in Filled(attrs, fields) && Filled(attrs, fields)[key] == fields[i].1
    decreases |fields|
  {
    var next, tail := attrs[fields[0].0 := fields[0].1], fields[1..];
    assert forall j | 0 <= j < |tail| :: tail[j] == fields[j + 1];
    if i > 0 {
      LastFieldWins(next, tail, key, i - 1);
    } else {
      UnsentKept(next, tail, key);
    }
  }

  /** `fields` lists the dictionary `m`, each key once, in any order. */
  predicate Lists(fields: seq<Field>, m: Attrs) {
    && (forall i | 0 <= i < |fields| :: fields[i].0 in m && m[fields[i].0] == fields[i].1)
    && (forall key | key in m :: exists i :: 0 <= i < |fields| && fields[i].0 == key)
    && (forall i, j | 0 <= i < j < |fields| :: fields[i].0 != fields[j].0)
  }

  /** A dictionary comes back whole, in whatever order its items were sent. */
  lemma DictionaryRoundTrip(m: Attrs, fields: seq<Field>, eol: string, rest: string)
    requires Lists(fields, m) && GoodFields(fields, eol) && IsLineEnd(eol)
    ensures Reading(map[], Serialize(fields, eol) + rest) == Request(m, rest)
  {
    ReadsFields(map[], fields, eol, rest);
    hide Reading, GoodFields;
    var r := Filled(map[], fields);
    forall key
      ensures key in r <==> key in m
      ensures key in m ==> r[key] == m[key]
    {
      if key in m {
        var i :| 0 <= i < |fields| && fields[i].0 == key;
        LastFieldWins(map[], fields, key, i);
      } else {
        UnsentKept(map[], fields, key);
      }
    }
    assert r == m;
  }

  predicate GoodRequests(requests: seq<seq<Field>>, eol: string) {
    forall n | 0 <= n < |requests| :: GoodFields(requests[n], eol)
  }

  function Dictionaries(requests: seq<seq<Field>>): seq<Attrs> {
    seq(|requests|, n requires 0 <= n < |requests| => Filled(map[], requests[n]))
  }

  /** The stream of any sequence of requests, empty ones included, reads back as that
      sequence. */
  lemma {:induction false} StreamRoundTrip(requests: seq<seq<Field>>, eol: string)
    requires GoodRequests(requests, eol) && IsLineEnd(eol)
    ensures ReadAll(SerializeAll(requests, eol)) == Dictionaries(requests)
    decreases |requests|
  {
    hide Reading, GoodFields, Serialize, Filled, ReadAll;
    if requests == [] {
      ReadAllOfNothing();
    } else {
      var tail := requests[1..];
      var rest := SerializeAll(tail, eol);
      ReadsFields(map[], requests[0], eol, rest);
      ReadAllUnfolds(Serialize(requests[0], eol) + rest, Filled(map[], requests[0]), rest);
      StreamRoundTrip(tail, eol);
      DictionariesSplit(requests);
    }
  }

  lemma ReadAllOfNothing()
    ensures ReadAll("") == []
  {
    ReadingUnfolds(map[], "");
    hide Reading, TooLong;
  }

  lemma DictionariesSplit(requests: seq<seq<Field>>)
    requires requests != []
    ensures Dictionaries(requests) == [Filled(map[], requests[0])] + Dictionaries(requests[1..])
  {
    hide Filled;
  }

  lemma ReadAllUnfolds(s: string, attrs: Attrs, rest: string)
    requires Reading(map[], s) == Request(attrs, rest)
    ensures ReadAll(s) == [attrs] + ReadAll(rest)
  {
    hide Reading;
  }

  // ---------------------------------------------------------------- the conversation

  /** The verdicts on a sequence of requests. */
  function Verdicts(requests: seq<seq<Field>>, looks: nat -> Look, start: nat): seq<Option<string>> {
    seq(|requests|, n requires 0 <= n < |requests| => Evaluate(Filled(map[], requests[n]), looks(start + n)))
  }

  /** Reply `n` is verdict `n`; only the last may be an exception, and only then are there
      fewer replies than verdicts. */
  predicate Answers(replies: seq<string>, verdicts: seq<Option<string>>) {
    && |replies| <= |verdicts|
    && (forall n | 0 <= n < |replies| :: replies[n] == Reply(verdicts[n]))
    && (forall n | 0 <= n < |replies| - 1 :: verdicts[n].Some?)
    && (|replies| < |verdicts| ==> |replies| > 0 && verdicts[|replies| - 1].None?)
  }

  /** Reply `n` is the verdict on request `n`. Every request is answered, unless an evaluation
      raises: that one is answered with a deferral, and the connection ends there. */
  lemma {:induction false} RepliesAnswer(requests: seq<seq<Field>>, eol: string, looks: nat -> Look, start: nat)
    requires GoodRequests(requests, eol) && IsLineEnd(eol)
    ensures Answers(Replies(SerializeAll(requests, eol), looks, start), Verdicts(requests, looks, start))
    decreases |requests|
  {
    hide Reading, GoodFields, Lines, Filled, Evaluate, Reply, Replies;
    if requests == [] {
      RepliesUnfold("", looks, start);
    } else {
      hide Answers;
      var tail := requests[1..];
      var rest := SerializeAll(tail, eol);
      ReadsFields(map[], requests[0], eol, rest);
      RepliesUnfold(Serialize(requests[0], eol) + rest, looks, start);
      RepliesAnswer(tail, eol, looks, start + 1);
      VerdictsSplit(requests, looks, start);
      AnswersFirst(Replies(rest, looks, start + 1), Verdicts(requests, looks, start));
    }
  }

  lemma VerdictsSplit(requests: seq<seq<Field>>, looks: nat -> Look, start: nat)
    requires requests != []
    ensures Verdicts(requests, looks, start)[0] == Evaluate(Filled(map[], requests[0]), looks(start))
    ensures Verdicts(requests, looks, start)[1..] == Verdicts(requests[1..], looks, start + 1)
  {
    hide Filled, Evaluate;
    forall n | 0 <= n < |requests| - 1
      ensures Verdicts(requests, looks, start)[1..][n] == Verdicts(requests[1..], looks, start + 1)[n]
    {
      assert start + 1 + n == start + (n + 1);
    }
  }

  lemma AnswersFirst(later: seq<string>, verdicts: seq<Option<string>>)
    requires verdicts != [] && Answers(later, verdicts[1..])
    ensures Answers(if verdicts[0].None? then [Reply(None)] else [Reply(verdicts[0])] + later, verdicts)
  {
    hide Reply;
  }

  // ---------------------------------------------------------------- the answers read back

  /** What goes over the wire for these verdicts. */
  function Written(texts: seq<string>): string {
    if texts == [] then "" else Reply(Some(texts[0])) + Written(texts[1..])
  }

  /** The texts a verdict can have. */
  predicate IsVerdict(text: string) {
    text == "OK" || text == EMPTY_RECIPIENT || text == UNKNOWN_RECIPIENT || text == POLICY_ERROR
  }

  lemma VerdictText(attrs: Attrs, look: Look)
    ensures IsVerdict(Evaluate(attrs, look).UnwrapOr(POLICY_ERROR))
  {
    hide Strip, Address.ParseRecipient, Lookup.Resolve;
  }

  /** What a verdict says: OK lets the recipient in, an exception defers, everything else
      rejects for good, an empty recipient in its own words. */
  lemma VerdictsTell(attrs: Attrs, look: Look)
    ensures var text := Evaluate(attrs, look).UnwrapOr(POLICY_ERROR);
            && (text == "OK" <==> Evaluate(attrs, look) == Some("OK"))
            && (StartsWith(text, "DEFER_IF_PERMIT ") <==> Evaluate(attrs, look).None?)
            && (StartsWith(text, "REJECT 550 ") <==> Evaluate(attrs, look).Some? && text != "OK")
            && (text == EMPTY_RECIPIENT <==> "recipient" !in attrs || Strip(attrs["recipient"]) == "")
  {
    VerdictStarts();
    hide Strip, Address.ParseRecipient, Lookup.Resolve, StartsWith;
  }

  lemma VerdictStarts()
    ensures StartsWith(POLICY_ERROR, "DEFER_IF_PERMIT ") && !StartsWith(POLICY_ERROR, "REJECT 550 ")
    ensures StartsWith(EMPTY_RECIPIENT, "REJECT 550 ") && !StartsWith(EMPTY_RECIPIENT, "DEFER_IF_PERMIT ")
    ensures StartsWith(UNKNOWN_RECIPIENT, "REJECT 550 ") && !StartsWith(UNKNOWN_RECIPIENT, "DEFER_IF_PERMIT ")
    ensures !StartsWith("OK", "REJECT 550 ") && !StartsWith("OK", "DEFER_IF_PERMIT ")
  {
    assert POLICY_ERROR[0] != "REJECT 550 "[0] && EMPTY_RECIPIENT[0] != "DEFER_IF_PERMIT "[0];
    assert UNKNOWN_RECIPIENT[0] != "DEFER_IF_PERMIT "[0];
  }

  lemma VerdictIsField(text: string)
    requires IsVerdict(text)
    ensures GoodField(("action", text), "\n")
  {
    if text == EMPTY_RECIPIENT {
      EmptyIsPlain();
    } else if text == UNKNOWN_RECIPIENT {
      UnknownIsPlain();
    } else if text == POLICY_ERROR {
      ErrorIsPlain();
    } else {
      OkIsPlain();
    }
    hide NoEol, Trimmed;
    ActionIsPlain();
  }

  predicate ShortPlain(s: string) {
    NoEol(s) && Trimmed(s) && |s| <= 100
  }

  lemma OkIsPlain()
    ensures ShortPlain("OK")
  {
  }

  lemma EmptyIsPlain()
    ensures ShortPlain(EMPTY_RECIPIENT)
  {
  }

  lemma UnknownIsPlain()
    ensures ShortPlain(UNKNOWN_RECIPIENT)
  {
  }

  lemma ErrorIsPlain()
    ensures ShortPlain(POLICY_ERROR)
  {
  }

  lemma ActionIsPlain()
    ensures ShortPlain("action") && '=' !in "action"
  {
  }

  function AsRequests(texts: seq<string>): (r: seq<seq<Field>>) {
    seq(|texts|, n requires 0 <= n < |texts| => [("action", texts[n])])
  }

  lemma {:induction false} WrittenIsStream(texts: seq<string>)
    ensures Written(texts) == SerializeAll(AsRequests(texts), "\n")
  {
    hide Reply, Serialize;
    if texts != [] {
      WrittenIsStream(texts[1..]);
      ReplyIsRequest(texts[0]);
      assert AsRequests(texts)[1..] == AsRequests(texts[1..]);
    }
  }

  lemma WrittenReadsBack(texts: seq<string>)
    requires forall n | 0 <= n < |texts| :: IsVerdict(texts[n])
    ensures |ReadAll(Written(texts))| == |texts|
    ensures forall n | 0 <= n < |texts| :: ReadAll(Written(texts))[n] == map["action" := texts[n]]
  {
    hide ReadAll, IsVerdict, GoodField, Reply, Serialize;
    WrittenIsStream(texts);
    forall n | 0 <= n < |texts|
      ensures GoodFields(AsRequests(texts)[n], "\n")
    {
      VerdictIsField(texts[n]);
    }
    StreamRoundTrip(AsRequests(texts), "\n");
    forall n | 0 <= n < |texts|
      ensures Filled(map[], AsRequests(texts)[n]) == map["action" := texts[n]]
    {
      assert AsRequests(texts)[n][1..] == [];
    }
  }

  /** The bytes on the wire. */
  function Joined(replies: seq<string>): string {
    if replies == [] then "" else replies[0] + Joined(replies[1..])
  }

  lemma {:induction false} JoinedIsWritten(replies: seq<string>, texts: seq<string>)
    requires |replies| == |texts| && forall i | 0 <= i < |texts| :: replies[i] == Reply(Some(texts[i]))
    ensures Joined(replies) == Written(texts)
  {
    hide Reply;
    if texts != [] {
      JoinedIsWritten(replies[1..], texts[1..]);
    }
  }

  /** Every reply of a conversation carries one of the four verdicts. */
  lemma {:induction false} RepliesAreVerdicts(s: string, looks: nat -> Look, n: nat) returns (texts: seq<string>)
    ensures |texts| == |Replies(s, looks, n)|
    ensures forall i | 0 <= i < |texts| :: IsVerdict(texts[i]) && Replies(s, looks, n)[i] == Reply(Some(texts[i]))
    decreases |s|
  {
    RepliesUnfold(s, looks, n);
    var r := Reading(map[], s);
    hide Reading, Evaluate, IsVerdict, Replies;
    if s == "" || r.NoRequest? {
      texts := [];
    } else if r.ReadError? {
      ErrorIsVerdict();
      texts := [POLICY_ERROR];
    } else {
      VerdictText(r.attrs, looks(n));
      var text := Evaluate(r.attrs, looks(n)).UnwrapOr(POLICY_ERROR);
      var later: seq<string> := [];
      if Evaluate(r.attrs, looks(n)).Some? {
        later := RepliesAreVerdicts(r.rest, looks, n + 1);
      }
      texts := [text] + later;
    }
  }

  lemma ErrorIsVerdict()
    ensures IsVerdict(POLICY_ERROR)
  {
  }

  /** Whatever was asked, and wherever the conversation broke off: the replies written so far
      are framed as requests are, so whoever reads them gets one `action` each, in order, and
      none can be mistaken for two or for half of one. */
  lemma RepliesReadBack(s: string, looks: nat -> Look, n: nat, sent: nat) returns (texts: seq<string>)
    requires sent <= |Replies(s, looks, n)|
    ensures |texts| == sent && |ReadAll(Joined(Replies(s, looks, n)[..sent]))| == sent
    ensures forall i | 0 <= i < sent ::
              && IsVerdict(texts[i]) && Replies(s, looks, n)[i] == Reply(Some(texts[i]))
              && ReadAll(Joined(Replies(s, looks, n)[..sent]))[i] == map["action" := texts[i]]
  {
    hide Replies, ReadAll, IsVerdict, Reply;
    var all := RepliesAreVerdicts(s, looks, n);
    texts := all[..sent];
    JoinedIsWritten(Replies(s, looks, n)[..sent], texts);
    WrittenReadsBack(texts);
  }

  /** From end to end: what Postfix reads as answer `i` is the verdict on its request `i`, or
      the deferral if that evaluation raised. */
  lemma ConversationReadsBack(requests: seq<seq<Field>>, eol: string, looks: nat -> Look, sent: nat)
    requires GoodRequests(requests, eol) && IsLineEnd(eol)
    requires sent <= |Replies(SerializeAll(requests, eol), looks, 0)|
    ensures sent <= |requests|
    ensures var answers := ReadAll(Joined(Replies(SerializeAll(requests, eol), looks, 0)[..sent]));
            && |answers| == sent
            && forall i | 0 <= i < sent ::
                 answers[i] == map["action" := Verdicts(requests, looks, 0)[i].UnwrapOr(POLICY_ERROR)]
  {
    RepliesAnswer(requests, eol, looks, 0);
    var verdicts := Verdicts(requests, looks, 0);
    var texts := seq(sent, i requires 0 <= i < sent => verdicts[i].UnwrapOr(POLICY_ERROR));
    forall i | 0 <= i < sent
      ensures IsVerdict(texts[i])
    {
      VerdictText(Filled(map[], requests[i]), looks(0 + i));
    }
    hide Replies, ReadAll, IsVerdict, Verdicts, SerializeAll;
    JoinedIsWritten(Replies(SerializeAll(requests, eol), looks, 0)[..sent], texts);
    WrittenReadsBack(texts);
  }

  lemma ReplyIsRequest(text: string)
    ensures Reply(Some(text)) == Serialize([("action", text)], "\n")
  {
    assert Lines([("action", text)], "\n") == Line(("action", text), "\n") + "";
    assert "action=" + text + "\n\n" == "action" + "=" + text + "\n" + "\n";
  }
}
