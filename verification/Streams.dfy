/**
  The two streaming clients of the KV test.  Both fold the lines of one server-sent event
  stream into an answer, its usage and its timings; they were written separately and differ in
  where they take the time of the first event.

  A line comes with the time elapsed when the client handles it, so all clock readings during
  one line agree.  JSON decoding and the notion of white space are parameters.  A missing,
  null or empty string is written "".
 */
module Streams {
  import opened Wrappers

  datatype Usage = Usage(promptTokens: Option<int>, cachedTokens: int)

  datatype Choice = Choice(content: string, finishReason: string)

  datatype Event = Event(id: string, usage: Option<Usage>, choices: seq<Choice>)

  datatype Line = Line(text: string, at: real)

  datatype Decoder = Decoder(space: char -> bool, parse: string -> Option<Event>) {
    function StripLeft(s: string): (r: string)
      ensures |r| <= |s|
    {
      if s != "" && space(s[0]) then StripLeft(s[1..]) else s
    }

    function StripRight(s: string): (r: string)
      ensures |r| <= |s|
    {
      if s != "" && space(s[|s| - 1]) then StripRight(s[..|s| - 1]) else s
    }

    function Strip(s: string): string {
      StripRight(StripLeft(s))
    }
  }

  predicate IsData(line: Line) {
    "data:" <= line.text
  }

  function Payload(d: Decoder, line: Line): string
    requires IsData(line)
  {
    d.Strip(line.text[5..])
  }

  const DONE: string := "[DONE]"

  /** What a client has gathered so far. */
  datatype Reading = Reading(
    firstEvent: Option<real>,
    ttft: Option<real>,
    parts: seq<string>,
    usage: Option<Usage>,
    responseId: string,
    finishReason: string)

  const EMPTY: Reading := Reading(None, None, [], None, "", "")

  function Or(s: string, default: string): string { if s != "" then s else default }

  function OrElse<T>(o: Option<T>, default: Option<T>): Option<T> { if o.Some? then o else default }

  function Join(parts: seq<string>): string {
    if parts == [] then "" else parts[0] + Join(parts[1..])
  }

  // ----- The reference: decode the stream first, then look at the events -----

  datatype Timed = Timed(event: Event, at: real)

  /** The events of the payload lines before the end marker; nothing if one of them is malformed. */
  function Decode(d: Decoder, lines: seq<Line>): Option<seq<Timed>> {
    if lines == [] then Some([])
    else if !IsData(lines[0]) then Decode(d, lines[1..])
    else
      var data := Payload(d, lines[0]);
      if data == DONE then Some([])
      else if data == "" then Decode(d, lines[1..])
      else if d.parse(data).None? then None
      else
        var rest := Decode(d, lines[1..]);
        if rest.None? then None else Some([Timed(d.parse(data).value, lines[0].at)] + rest.value)
  }

  function Text(e: Event): string {
    if e.choices == [] then "" else e.choices[0].content
  }

  function Finish(e: Event): string {
    if e.choices == [] then "" else e.choices[0].finishReason
  }

  function Texts(es: seq<Timed>): seq<string> {
    if es == [] then []
    else (if Text(es[0].event) != "" then [Text(es[0].event)] else []) + Texts(es[1..])
  }

  /** The time of the first event that carries text. */
  function FirstText(es: seq<Timed>): Option<real> {
    if es == [] then None
    else if Text(es[0].event) != "" then Some(es[0].at)
    else FirstText(es[1..])
  }

  function LastUsage(es: seq<Timed>): Option<Usage> {
    if es == [] then None else OrElse(LastUsage(es[1..]), es[0].event.usage)
  }

  function LastId(es: seq<Timed>): string {
    if es == [] then "" else Or(LastId(es[1..]), es[0].event.id)
  }

  function LastFinish(es: seq<Timed>): string {
    if es == [] then "" else Or(LastFinish(es[1..]), Finish(es[0].event))
  }

  /** The time of the first data line before the end marker, empty or not. */
  function FirstData(d: Decoder, lines: seq<Line>): Option<real> {
    if lines == [] then None
    else if !IsData(lines[0]) then FirstData(d, lines[1..])
    else if Payload(d, lines[0]) == DONE then None
    else Some(lines[0].at)
  }

  function FirstEvent(es: seq<Timed>): Option<real> {
    if es == [] then None else Some(es[0].at)
  }

  // ----- The folds -----

  /** One event absorbed into what was gathered before it. */
  function Absorb(r: Reading, e: Event, at: real): Reading {
    r.(responseId := Or(e.id, r.responseId),
       usage := OrElse(e.usage, r.usage),
       ttft := if Text(e) != "" then OrElse(r.ttft, Some(at)) else r.ttft,
       parts := r.parts + if Text(e) != "" then [Text(e)] else [],
       finishReason := Or(Finish(e), r.finishReason))
  }

  function Noticed(r: Reading, at: real): Reading {
    r.(firstEvent := OrElse(r.firstEvent, Some(at)))
  }

  /** The client outside the pod takes the first-event time at the first data line. */
  function HarnessFold(d: Decoder, lines: seq<Line>, r: Reading): Option<Reading>
    decreases |lines|
  {
    if lines == [] then Some(r)
    else if !IsData(lines[0]) then HarnessFold(d, lines[1..], r)
    else
      var data := Payload(d, lines[0]);
      if data == DONE then Some(r)
      else
        var noticed := Noticed(r, lines[0].at);
        if data == "" then HarnessFold(d, lines[1..], noticed)
        else if d.parse(data).None? then None
        else HarnessFold(d, lines[1..], Absorb(noticed, d.parse(data).value, lines[0].at))
  }

  /** The client inside the pod takes it at the first line with a payload. */
  function PodFold(d: Decoder, lines: seq<Line>, r: Reading): Option<Reading>
    decreases |lines|
  {
    if lines == [] then Some(r)
    else if !IsData(lines[0]) then PodFold(d, lines[1..], r)
    else
      var data := Payload(d, lines[0]);
      if data == DONE then Some(r)
      else if data == "" then PodFold(d, lines[1..], r)
      else if d.parse(data).None? then None
      else PodFold(d, lines[1..], Absorb(Noticed(r, lines[0].at), d.parse(data).value, lines[0].at))
  }

  method RequestOnce(d: Decoder, lines: seq<Line>) returns (r: Option<Reading>)
    ensures r == HarnessFold(d, lines, EMPTY)
  {
    var firstEvent, ttft: Option<real> := None, None;
    var contentParts: seq<string> := [];
    var usage: Option<Usage> := None;
    var responseId, finishReason := "", "";
    var i := 0;
    while i < |lines|
      invariant 0 <= i <= |lines|
      invariant HarnessFold(d, lines[i..], Reading(firstEvent, ttft, contentParts, usage, responseId, finishReason)) ==
                HarnessFold(d, lines, EMPTY)
    {
      var line := lines[i];
      assert lines[i..][0] == line && lines[i..][1..] == lines[i + 1..];
      i := i + 1;
      if !IsData(line) {
        continue;
      }
      var data := Payload(d, line);
      if data == DONE {
        return Some(Reading(firstEvent, ttft, contentParts, usage, responseId, finishReason));
      }
      if firstEvent.None? {
        firstEvent := Some(line.at);
      }
      if data == "" {
        continue;
      }
      if d.parse(data).None? {
        return None;
      }
      var event := d.parse(data).value;
      ghost var before := Reading(firstEvent, ttft, contentParts, usage, responseId, finishReason);
      responseId := Or(event.id, responseId);
      if event.usage.Some? {
        usage := event.usage;
      }
      if event.choices != [] {
        var text := event.choices[0].content;
        if text != "" {
          if ttft.None? {
            ttft := Some(line.at);
          }
          contentParts := contentParts + [text];
        }
        finishReason := Or(event.choices[0].finishReason, finishReason);
      }
      assert Reading(firstEvent, ttft, contentParts, usage, responseId, finishReason) == Absorb(before, event, line.at) by {
        assert before.parts + [] == before.parts;
      }
    }
    r := Some(Reading(firstEvent, ttft, contentParts, usage, responseId, finishReason));
  }

  method InPodClient(d: Decoder, lines: seq<Line>) returns (r: Option<Reading>)
    ensures r == PodFold(d, lines, EMPTY)
  {
    var firstEvent, ttft: Option<real> := None, None;
    var answer: seq<string> := [];
    var usage: Option<Usage> := None;
    var finishReason, responseId := "", "";
    var i := 0;
    while i < |lines|
      invariant 0 <= i <= |lines|
      invariant PodFold(d, lines[i..], Reading(firstEvent, ttft, answer, usage, responseId, finishReason)) ==
                PodFold(d, lines, EMPTY)
    {
      var line := lines[i];
      assert lines[i..][0] == line && lines[i..][1..] == lines[i + 1..];
      i := i + 1;
      if !IsData(line) {
        continue;
      }
      var data := Payload(d, line);
      if data == DONE {
        return Some(Reading(firstEvent, ttft, answer, usage, responseId, finishReason));
      }
      if data == "" {
        continue;
      }
      if firstEvent.None? {
        firstEvent := Some(line.at);
      }
      if d.parse(data).None? {
        return None;
      }
      var event := d.parse(data).value;
      ghost var before := Reading(firstEvent, ttft, answer, usage, responseId, finishReason);
      responseId := Or(event.id, responseId);
      if event.usage.Some? {
        usage := event.usage;
      }
      if event.choices != [] {
        var text := event.choices[0].content;
        if text != "" {
          if ttft.None? {
            ttft := Some(line.at);
          }
          answer := answer + [text];
        }
        finishReason := Or(event.choices[0].finishReason, finishReason);
      }
      assert Reading(firstEvent, ttft, answer, usage, responseId, finishReason) == Absorb(before, event, line.at) by {
        assert before.parts + [] == before.parts;
      }
    }
    r := Some(Reading(firstEvent, ttft, answer, usage, responseId, finishReason));
  }

  // ----- Both folds meet the reference -----

  /** r continued with the events es, except for the first-event time. */
  predicate Continues(r: Reading, es: seq<Timed>, r': Reading) {
    && r'.ttft == OrElse(r.ttft, FirstText(es))
    && r'.parts == r.parts + Texts(es)
    && r'.usage == OrElse(LastUsage(es), r.usage)
    && r'.responseId == Or(LastId(es), r.responseId)
    && r'.finishReason == Or(LastFinish(es), r.finishReason)
  }

  lemma AbsorbContinues(r: Reading, e: Timed, es: seq<Timed>, r': Reading)
    requires Continues(Absorb(r, e.event, e.at), es, r')
    ensures Continues(r, [e] + es, r')
  {
    assert ([e] + es)[1..] == es;
  }

  lemma {:induction false} HarnessMeetsReference(d: Decoder, lines: seq<Line>, r: Reading)
    ensures HarnessFold(d, lines, r).Some? <==> Decode(d, lines).Some?
    ensures HarnessFold(d, lines, r).Some? ==>
              && Continues(r, Decode(d, lines).value, HarnessFold(d, lines, r).value)
              && HarnessFold(d, lines, r).value.firstEvent == OrElse(r.firstEvent, FirstData(d, lines))
    decreases |lines|
  {
    if lines != [] {
      if !IsData(lines[0]) {
        HarnessMeetsReference(d, lines[1..], r);
      } else {
        var data := Payload(d, lines[0]);
        var noticed := Noticed(r, lines[0].at);
        if data == "" {
          HarnessMeetsReference(d, lines[1..], noticed);
        } else if data != DONE && d.parse(data).Some? {
          var e := Timed(d.parse(data).value, lines[0].at);
          HarnessMeetsReference(d, lines[1..], Absorb(noticed, e.event, e.at));
          if Decode(d, lines[1..]).Some? {
            AbsorbContinues(noticed, e, Decode(d, lines[1..]).value, HarnessFold(d, lines, r).value);
          }
        }
      }
    }
  }

  lemma {:induction false} PodMeetsReference(d: Decoder, lines: seq<Line>, r: Reading)
    ensures PodFold(d, lines, r).Some? <==> Decode(d, lines).Some?
    ensures PodFold(d, lines, r).Some? ==>
              && Continues(r, Decode(d, lines).value, PodFold(d, lines, r).value)
              && PodFold(d, lines, r).value.firstEvent == OrElse(r.firstEvent, FirstEvent(Decode(d, lines).value))
    decreases |lines|
  {
    if lines != [] {
      if !IsData(lines[0]) {
        PodMeetsReference(d, lines[1..], r);
      } else {
        var data := Payload(d, lines[0]);
        if data == "" {
          PodMeetsReference(d, lines[1..], r);
        } else if data != DONE && d.parse(data).Some? {
          var noticed := Noticed(r, lines[0].at);
          var e := Timed(d.parse(data).value, lines[0].at);
          PodMeetsReference(d, lines[1..], Absorb(noticed, e.event, e.at));
          if Decode(d, lines[1..]).Some? {
            AbsorbContinues(noticed, e, Decode(d, lines[1..]).value, PodFold(d, lines, r).value);
          }
        }
      }
    }
  }

  // ----- The two clients against each other -----

  predicate NonDecreasing(lines: seq<Line>) {
    forall i, j :: 0 <= i < j < |lines| ==> lines[i].at <= lines[j].at
  }

  predicate StrictlyIncreasing(lines: seq<Line>) {
    forall i, j :: 0 <= i < j < |lines| ==> lines[i].at < lines[j].at
  }

  /** The first data line is the end marker or has a payload, or there is none. */
  predicate FirstDataHasPayload(d: Decoder, lines: seq<Line>) {
    lines == [] ||
    (if IsData(lines[0]) then Payload(d, lines[0]) != "" else FirstDataHasPayload(d, lines[1..]))
  }

  lemma {:induction false} FirstEventOrder(d: Decoder, lines: seq<Line>, floor: real)
    requires Decode(d, lines).Some?
    requires forall i :: 0 <= i < |lines| ==> floor <= lines[i].at
    requires NonDecreasing(lines)
    ensures var es := Decode(d, lines).value;
            && (FirstEvent(es).Some? ==> FirstData(d, lines).Some? && floor <= FirstData(d, lines).value <= FirstEvent(es).value)
            && (FirstText(es).Some? ==> FirstEvent(es).Some? && FirstEvent(es).value <= FirstText(es).value)
            && (FirstDataHasPayload(d, lines) ==> FirstData(d, lines) == FirstEvent(es))
            && (StrictlyIncreasing(lines) && FirstData(d, lines) == FirstEvent(es) ==>
                  FirstDataHasPayload(d, lines))
    decreases |lines|
  {
    if lines != [] {
      assert forall i :: 0 <= i < |lines[1..]| ==> lines[0].at <= lines[1..][i].at;
      if !IsData(lines[0]) {
        FirstEventOrder(d, lines[1..], floor);
      } else if Payload(d, lines[0]) != DONE {
        FirstEventOrder(d, lines[1..], lines[0].at);
        if Payload(d, lines[0]) == "" {
          EventsComeFromLines(d, lines[1..]);
        }
      }
    }
  }

  lemma {:induction false} EventsComeFromLines(d: Decoder, lines: seq<Line>)
    requires Decode(d, lines).Some?
    ensures forall k :: 0 <= k < |Decode(d, lines).value| ==>
              exists i :: 0 <= i < |lines| && lines[i].at == Decode(d, lines).value[k].at
    decreases |lines|
  {
    if lines != [] && !(IsData(lines[0]) && Payload(d, lines[0]) == DONE) {
      EventsComeFromLines(d, lines[1..]);
      var es, rest := Decode(d, lines).value, Decode(d, lines[1..]).value;
      forall k | 0 <= k < |es| ensures exists i :: 0 <= i < |lines| && lines[i].at == es[k].at {
        if es == rest {
          var i :| 0 <= i < |lines[1..]| && lines[1..][i].at == es[k].at;
          assert lines[i + 1].at == es[k].at;
        } else if k == 0 {
          assert lines[0].at == es[0].at;
        } else {
          assert es[k] == rest[k - 1];
          var i :| 0 <= i < |lines[1..]| && lines[1..][i].at == rest[k - 1].at;
          assert lines[i + 1].at == es[k].at;
        }
      }
    }
  }

  /** For every stream and nondecreasing clock the clients fail together, and otherwise compute the
      same answer, usage, finish reason, response id and time to first token; the outside client
      never reports a later first event.  On a strictly increasing clock it reports a different one
      exactly when an empty data line comes before the first payload. */
  lemma ClientsAgree(d: Decoder, lines: seq<Line>)
    requires NonDecreasing(lines)
    ensures var h, p := HarnessFold(d, lines, EMPTY), PodFold(d, lines, EMPTY);
            && (h.Some? <==> p.Some?)
            && (h.Some? ==>
                  && h.value.(firstEvent := None) == p.value.(firstEvent := None)
                  && (p.value.firstEvent.Some? ==>
                        h.value.firstEvent.Some? && h.value.firstEvent.value <= p.value.firstEvent.value)
                  && (StrictlyIncreasing(lines) ==>
                        (h.value.firstEvent == p.value.firstEvent <==> FirstDataHasPayload(d, lines))))
  {
    HarnessMeetsReference(d, lines, EMPTY);
    PodMeetsReference(d, lines, EMPTY);
    if Decode(d, lines).Some? {
      FirstEventOrder(d, lines, if lines == [] then 0.0 else lines[0].at);
    }
  }

  function Answer(d: Decoder, r: Reading): string {
    d.Strip(Join(r.parts))
  }

  /** The exit test of both clients. */
  predicate Passes(d: Decoder, r: Reading, status: int, expected: string) {
    status == 200 && Answer(d, r) == expected && r.ttft.Some?
  }

  lemma {:induction false} TextNeedsTime(es: seq<Timed>)
    ensures Texts(es) != [] <==> FirstText(es).Some?
  {
    if es != [] {
      TextNeedsTime(es[1..]);
    }
  }

  lemma {:induction false} FirstTextBound(d: Decoder, lines: seq<Line>, total: real)
    requires Decode(d, lines).Some?
    requires forall i :: 0 <= i < |lines| ==> lines[i].at <= total
    ensures FirstText(Decode(d, lines).value).Some? ==> FirstText(Decode(d, lines).value).value <= total
    decreases |lines|
  {
    if lines != [] && !(IsData(lines[0]) && Payload(d, lines[0]) == DONE) {
      FirstTextBound(d, lines[1..], total);
      if IsData(lines[0]) && Payload(d, lines[0]) != "" {
        var rest := Decode(d, lines[1..]).value;
        assert Decode(d, lines).value[1..] == rest;
      }
    }
  }

  /** A correct nonempty answer forces a time to first token, ordered between the first event and
      the end, in both clients; so for a nonempty expectation their own TTFT test is redundant. */
  lemma CorrectAnswerHasTtft(d: Decoder, lines: seq<Line>, total: real, expected: string)
    requires NonDecreasing(lines) && forall i :: 0 <= i < |lines| ==> lines[i].at <= total
    requires HarnessFold(d, lines, EMPTY).Some?
    requires expected != "" && Answer(d, HarnessFold(d, lines, EMPTY).value) == expected
    ensures PodFold(d, lines, EMPTY).Some?
    ensures var h, p := HarnessFold(d, lines, EMPTY).value, PodFold(d, lines, EMPTY).value;
            && (forall status :: Passes(d, h, status, expected) <==> status == 200)
            && (forall status :: Passes(d, p, status, expected) <==> status == 200)
            && h.firstEvent.Some? && p.firstEvent.Some? && h.ttft.Some? && p.ttft.Some?
            && h.firstEvent.value <= p.firstEvent.value <= h.ttft.value == p.ttft.value <= total
  {
    ClientsAgree(d, lines);
    HarnessMeetsReference(d, lines, EMPTY);
    PodMeetsReference(d, lines, EMPTY);
    var es := Decode(d, lines).value;
    TextNeedsTime(es);
    FirstTextBound(d, lines, total);
    FirstEventOrder(d, lines, if lines == [] then 0.0 else lines[0].at);
  }
}
