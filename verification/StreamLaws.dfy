/**
  What the bytes of a stream mean to the two clients: which white space and which lines they
  ignore, what ends a stream, and which fields of which events make up the result.
 */
module StreamLaws {
  import opened Wrappers
  import opened Streams

  // ----- White space -----

  predicate AllSpace(d: Decoder, s: string) {
    forall i :: 0 <= i < |s| ==> d.space(s[i])
  }

  lemma {:induction false} StripLeftAppend(d: Decoder, s: string, t: string)
    ensures d.StripLeft(s + t) == if AllSpace(d, s) then d.StripLeft(t) else d.StripLeft(s) + t
  {
    if s == "" {
      assert s + t == t;
    } else {
      assert (s + t)[0] == s[0] && (s + t)[1..] == s[1..] + t;
      assert d.space(s[0]) ==> (AllSpace(d, s) <==> AllSpace(d, s[1..]));
      StripLeftAppend(d, s[1..], t);
    }
  }

  lemma {:induction false} StripLeftSplits(d: Decoder, s: string)
    ensures var n := |s| - |d.StripLeft(s)|;
            && s[n..] == d.StripLeft(s) && AllSpace(d, s[..n])
            && (d.StripLeft(s) != "" ==> !d.space(d.StripLeft(s)[0]))
            && (AllSpace(d, s) <==> d.StripLeft(s) == "")
  {
    if s != "" && d.space(s[0]) {
      StripLeftSplits(d, s[1..]);
      var n := |s| - |d.StripLeft(s)|;
      assert s[n..] == s[1..][n - 1..];
      assert s[..n] == [s[0]] + s[1..][..n - 1];
      assert AllSpace(d, s[1..]) ==> AllSpace(d, s);
    }
  }

  lemma {:induction false} StripRightSplits(d: Decoder, s: string)
    ensures var r := d.StripRight(s);
            && s[..|r|] == r && AllSpace(d, s[|r|..])
            && (r != "" ==> !d.space(r[|r| - 1]))
  {
    if s != "" && d.space(s[|s| - 1]) {
      var t := s[..|s| - 1];
      StripRightSplits(d, t);
      assert s[|d.StripRight(s)|..] == t[|d.StripRight(t)|..] + [s[|s| - 1]];
    }
  }

  lemma {:induction false} StripRightDrops(d: Decoder, s: string, r: string)
    requires AllSpace(d, r)
    ensures d.StripRight(s + r) == d.StripRight(s)
    decreases |r|
  {
    if r == "" {
      assert s + r == s;
    } else {
      assert (s + r)[..|s + r| - 1] == s + r[..|r| - 1];
      StripRightDrops(d, s, r[..|r| - 1]);
    }
  }

  /** Stripping removes white space at both ends, all of it and nothing else. */
  lemma StripSplits(d: Decoder, s: string) returns (left: string, right: string)
    ensures s == left + d.Strip(s) + right
    ensures AllSpace(d, left) && AllSpace(d, right)
    ensures d.Strip(s) != "" ==> !d.space(d.Strip(s)[0]) && !d.space(d.Strip(s)[|d.Strip(s)| - 1])
  {
    var t := d.StripLeft(s);
    StripLeftSplits(d, s);
    StripRightSplits(d, t);
    left, right := s[..|s| - |t|], t[|d.Strip(s)|..];
    assert s == left + t && t == d.Strip(s) + right;
  }

  /** White space around a string makes no difference. */
  lemma StripIgnoresPadding(d: Decoder, left: string, s: string, right: string)
    requires AllSpace(d, left) && AllSpace(d, right)
    ensures d.Strip(left + s + right) == d.Strip(s)
  {
    assert left + s + right == left + (s + right);
    StripLeftAppend(d, left, s + right);
    StripLeftAppend(d, s, right);
    if AllSpace(d, s) {
      StripLeftSplits(d, s);
      StripLeftSplits(d, right);
    } else {
      StripRightDrops(d, d.StripLeft(s), right);
    }
  }

  /** A string that neither begins nor ends with white space is left alone. */
  lemma StripKeeps(d: Decoder, s: string)
    requires s == "" || (!d.space(s[0]) && !d.space(s[|s| - 1]))
    ensures d.Strip(s) == s
  {
  }

  // ----- Lines -----

  /** The line b is the data line a with white space added around its field. */
  ghost predicate PaddedLine(d: Decoder, a: Line, b: Line) {
    && a.at == b.at && "data:" <= a.text
    && exists left, right :: AllSpace(d, left) && AllSpace(d, right) && b.text == "data:" + (left + a.text[5..] + right)
  }

  lemma PaddedPayload(d: Decoder, a: Line, b: Line)
    requires PaddedLine(d, a, b)
    ensures IsData(a) && IsData(b) && Payload(d, a) == Payload(d, b)
  {
    var left, right :| AllSpace(d, left) && AllSpace(d, right) && b.text == "data:" + (left + a.text[5..] + right);
    StripIgnoresPadding(d, left, a.text[5..], right);
    assert b.text[5..] == left + a.text[5..] + right;
  }

  /** White space added around the fields of any data lines changes neither client's result. */
  lemma {:induction false} PaddingChangesNothing(d: Decoder, lines: seq<Line>, padded: seq<Line>, r: Reading)
    requires |padded| == |lines|
    requires forall i :: 0 <= i < |lines| ==> padded[i] == lines[i] || PaddedLine(d, lines[i], padded[i])
    ensures HarnessFold(d, padded, r) == HarnessFold(d, lines, r)
    ensures PodFold(d, padded, r) == PodFold(d, lines, r)
    decreases |lines|
  {
    if lines != [] {
      if padded[0] != lines[0] {
        PaddedPayload(d, lines[0], padded[0]);
      }
      forall r' ensures HarnessFold(d, padded[1..], r') == HarnessFold(d, lines[1..], r') &&
                        PodFold(d, padded[1..], r') == PodFold(d, lines[1..], r')
      {
        PaddingChangesNothing(d, lines[1..], padded[1..], r');
      }
    }
  }

  /** A line that is ignored by both clients wherever it comes. */
  predicate IsOther(line: Line) {
    !("data:" <= line.text)
  }

  lemma {:induction false} OtherLinesAreIgnored(d: Decoder, before: seq<Line>, line: Line, after: seq<Line>, r: Reading)
    requires IsOther(line)
    ensures HarnessFold(d, before + ([line] + after), r) == HarnessFold(d, before + after, r)
    ensures PodFold(d, before + ([line] + after), r) == PodFold(d, before + after, r)
    decreases |before|
  {
    if before == [] {
      assert before + ([line] + after) == [line] + after && before + after == after;
      assert ([line] + after)[1..] == after;
    } else {
      assert (before + ([line] + after))[1..] == before[1..] + ([line] + after);
      assert (before + after)[1..] == before[1..] + after;
      forall r' ensures HarnessFold(d, before[1..] + ([line] + after), r') == HarnessFold(d, before[1..] + after, r') &&
                        PodFold(d, before[1..] + ([line] + after), r') == PodFold(d, before[1..] + after, r')
      {
        OtherLinesAreIgnored(d, before[1..], line, after, r');
      }
    }
  }

  /** The end marker, with any white space around it. */
  ghost predicate IsEnd(d: Decoder, line: Line) {
    exists left, right :: AllSpace(d, left) && AllSpace(d, right) && line.text == "data:" + (left + "[DONE]" + right)
  }

  lemma EndPayload(d: Decoder, line: Line)
    requires !d.space('[') && !d.space(']') && IsData(line)
    ensures IsEnd(d, line) <==> Payload(d, line) == DONE
  {
    if IsEnd(d, line) {
      var left, right :| AllSpace(d, left) && AllSpace(d, right) && line.text == "data:" + (left + "[DONE]" + right);
      assert line.text[5..] == left + "[DONE]" + right;
      StripIgnoresPadding(d, left, "[DONE]", right);
      StripKeeps(d, "[DONE]");
    }
    if Payload(d, line) == DONE {
      var left, right := StripSplits(d, line.text[5..]);
      assert line.text == "data:" + (left + "[DONE]" + right);
    }
  }

  /** The end marker ends the stream, whatever follows it. */
  lemma {:induction false} EndMarkerEndsStream(d: Decoder, before: seq<Line>, end: Line, after: seq<Line>, r: Reading)
    requires !d.space('[') && !d.space(']') && IsEnd(d, end)
    ensures HarnessFold(d, before + ([end] + after), r) == HarnessFold(d, before, r)
    ensures PodFold(d, before + ([end] + after), r) == PodFold(d, before, r)
    decreases |before|
  {
    assert IsData(end);
    if before == [] {
      assert before + ([end] + after) == [end] + after;
      EndPayload(d, end);
    } else {
      assert (before + ([end] + after))[1..] == before[1..] + ([end] + after);
      forall r' ensures HarnessFold(d, before[1..] + ([end] + after), r') == HarnessFold(d, before[1..], r') &&
                        PodFold(d, before[1..] + ([end] + after), r') == PodFold(d, before[1..], r')
      {
        EndMarkerEndsStream(d, before[1..], end, after, r');
      }
    }
  }

  // ----- Events -----

  /** One of the lines is an end marker. */
  predicate Ends(d: Decoder, lines: seq<Line>) {
    exists i :: 0 <= i < |lines| && IsData(lines[i]) && Payload(d, lines[i]) == DONE
  }

  lemma {:induction false} DecodeAppend(d: Decoder, a: seq<Line>, b: seq<Line>)
    ensures Decode(d, a + b) ==
            if Ends(d, a) || Decode(d, a).None? then Decode(d, a)
            else if Decode(d, b).None? then None
            else Some(Decode(d, a).value + Decode(d, b).value)
    decreases |a|
  {
    if a == [] {
      assert a + b == b;
      assert Decode(d, b).Some? ==> [] + Decode(d, b).value == Decode(d, b).value;
    } else {
      assert (a + b)[1..] == a[1..] + b;
      DecodeAppend(d, a[1..], b);
      var ended := IsData(a[0]) && Payload(d, a[0]) == DONE;
      assert !ended ==> (Ends(d, a) <==> Ends(d, a[1..])) by {
        if Ends(d, a) && !ended {
          var i :| 0 <= i < |a| && IsData(a[i]) && Payload(d, a[i]) == DONE;
          assert a[1..][i - 1] == a[i];
        }
        if Ends(d, a[1..]) {
          var i :| 0 <= i < |a[1..]| && IsData(a[1..][i]) && Payload(d, a[1..][i]) == DONE;
          assert a[i + 1] == a[1..][i];
        }
      }
      if !ended && Decode(d, a).Some? && Decode(d, b).Some? && IsData(a[0]) && Payload(d, a[0]) != "" && !Ends(d, a) {
        var e := Timed(d.parse(Payload(d, a[0])).value, a[0].at);
        assert [e] + (Decode(d, a[1..]).value + Decode(d, b).value) == ([e] + Decode(d, a[1..]).value) + Decode(d, b).value;
      }
    }
  }

  lemma DecodeOne(d: Decoder, line: Line)
    requires "data:" <= line.text
    ensures var data := d.Strip(line.text[5..]);
            Decode(d, [line]) ==
            if data == "" || data == "[DONE]" then Some([])
            else if d.parse(data).None? then None
            else Some([Timed(d.parse(data).value, line.at)])
  {
    assert [line][1..] == [];
    var data := d.Strip(line.text[5..]);
    assert Payload(d, line) == data;
    assert d.parse(data).Some? ==>
        [Timed(d.parse(data).value, line.at)] + [] == [Timed(d.parse(data).value, line.at)];
  }

  /** What a data line in the middle of a stream that has not ended contributes: nothing if its field
      is white space; one event if the field decodes; and otherwise the whole stream is refused, by
      both clients. */
  lemma DataLineContributes(d: Decoder, before: seq<Line>, line: Line, after: seq<Line>)
    requires "data:" <= line.text && !Ends(d, before) && Decode(d, before).Some?
    requires d.Strip(line.text[5..]) != "[DONE]"
    ensures var field := line.text[5..];
            var all := before + ([line] + after);
            && (AllSpace(d, field) ==>
                  && PodFold(d, all, EMPTY) == PodFold(d, before + after, EMPTY)
                  && SameButFirstEvent(HarnessFold(d, all, EMPTY), HarnessFold(d, before + after, EMPTY)))
            && (!AllSpace(d, field) && d.parse(d.Strip(field)).None? ==>
                  HarnessFold(d, all, EMPTY) == PodFold(d, all, EMPTY) == None)
            && (!AllSpace(d, field) && d.parse(d.Strip(field)).Some? && Decode(d, after).Some? ==>
                  Decode(d, all) == Some(Decode(d, before).value +
                                         ([Timed(d.parse(d.Strip(field)).value, line.at)] + Decode(d, after).value)))
  {
    var field, all := line.text[5..], before + ([line] + after);
    StripLeftSplits(d, field);
    StripRightSplits(d, d.StripLeft(field));
    assert AllSpace(d, field) <==> d.Strip(field) == "";
    DecodeAppend(d, before, [line] + after);
    DecodeAppend(d, [line], after);
    DecodeAppend(d, before, after);
    DecodeOne(d, line);
    assert !Ends(d, [line]);
    assert Decode(d, after).Some? ==> [] + Decode(d, after).value == Decode(d, after).value;
    HarnessMeetsReference(d, all, EMPTY);
    PodMeetsReference(d, all, EMPTY);
    if AllSpace(d, field) {
      SameEvents(d, all, before + after);
    }
  }

  predicate SameButFirstEvent(r: Option<Reading>, r': Option<Reading>) {
    (r.Some? <==> r'.Some?) && (r.Some? ==> r.value.(firstEvent := None) == r'.value.(firstEvent := None))
  }

  lemma SameEvents(d: Decoder, a: seq<Line>, b: seq<Line>)
    requires Decode(d, a) == Decode(d, b)
    ensures PodFold(d, a, EMPTY) == PodFold(d, b, EMPTY)
    ensures SameButFirstEvent(HarnessFold(d, a, EMPTY), HarnessFold(d, b, EMPTY))
  {
    HarnessMeetsReference(d, a, EMPTY);
    HarnessMeetsReference(d, b, EMPTY);
    PodMeetsReference(d, a, EMPTY);
    PodMeetsReference(d, b, EMPTY);
  }

  // ----- The result -----

  /** The contents of the first choices, one after the other. */
  function Contents(es: seq<Timed>): string {
    if es == [] then ""
    else (if |es[0].event.choices| > 0 then es[0].event.choices[0].content else "") + Contents(es[1..])
  }

  /** v is the last value other than none, or none if there is no other. */
  ghost predicate IsLast<T>(xs: seq<T>, none: T, v: T) {
    if v == none then forall k :: 0 <= k < |xs| ==> xs[k] == none
    else exists k :: 0 <= k < |xs| && xs[k] == v && forall j :: k < j < |xs| ==> xs[j] == none
  }

  lemma LastStep<T>(xs: seq<T>, none: T, v: T)
    requires xs != [] && IsLast(xs[1..], none, v)
    ensures IsLast(xs, none, if v != none then v else xs[0])
  {
    if v == none {
      assert forall k :: 1 <= k < |xs| ==> xs[k] == xs[1..][k - 1];
    } else {
      var k :| 0 <= k < |xs[1..]| && xs[1..][k] == v && forall j :: k < j < |xs[1..]| ==> xs[1..][j] == none;
      assert xs[k + 1] == v;
      assert forall j :: k + 1 < j < |xs| ==> xs[j] == xs[1..][j - 1];
    }
  }

  function Usages(es: seq<Timed>): seq<Option<Usage>> {
    seq(|es|, i requires 0 <= i < |es| => es[i].event.usage)
  }

  function Ids(es: seq<Timed>): seq<string> {
    seq(|es|, i requires 0 <= i < |es| => es[i].event.id)
  }

  function FinishReasons(es: seq<Timed>): seq<string> {
    seq(|es|, i requires 0 <= i < |es| =>
      if |es[i].event.choices| > 0 then es[i].event.choices[0].finishReason else "")
  }

  predicate HasContent(e: Event) {
    |e.choices| > 0 && e.choices[0].content != ""
  }

  /** t is the time of the first event with content. */
  ghost predicate IsFirstContent(es: seq<Timed>, t: Option<real>) {
    if t == None then forall k :: 0 <= k < |es| ==> !HasContent(es[k].event)
    else exists k :: 0 <= k < |es| && es[k].at == t.value && HasContent(es[k].event) &&
                     forall j :: 0 <= j < k ==> !HasContent(es[j].event)
  }

  lemma {:induction false} TextsConcatenate(es: seq<Timed>)
    ensures Join(Texts(es)) == Contents(es)
  {
    if es != [] {
      TextsConcatenate(es[1..]);
      if Text(es[0].event) != "" {
        assert ([Text(es[0].event)] + Texts(es[1..]))[1..] == Texts(es[1..]);
      } else {
        assert [] + Texts(es[1..]) == Texts(es[1..]);
      }
    }
  }

  lemma {:induction false} LastFields(es: seq<Timed>)
    ensures IsLast(Usages(es), None, LastUsage(es))
    ensures IsLast(Ids(es), "", LastId(es))
    ensures IsLast(FinishReasons(es), "", LastFinish(es))
  {
    if es != [] {
      LastFields(es[1..]);
      assert Usages(es)[1..] == Usages(es[1..]);
      assert Ids(es)[1..] == Ids(es[1..]);
      assert FinishReasons(es)[1..] == FinishReasons(es[1..]);
      LastStep(Usages(es), None, LastUsage(es[1..]));
      LastStep(Ids(es), "", LastId(es[1..]));
      LastStep(FinishReasons(es), "", LastFinish(es[1..]));
    }
  }

  lemma {:induction false} FirstContent(es: seq<Timed>)
    ensures IsFirstContent(es, FirstText(es))
  {
    if es != [] {
      FirstContent(es[1..]);
      if HasContent(es[0].event) {
        assert FirstText(es) == Some(es[0].at);
      } else if FirstText(es).Some? {
        var k :| 0 <= k < |es[1..]| && es[1..][k].at == FirstText(es).value && HasContent(es[1..][k].event) &&
                 forall j :: 0 <= j < k ==> !HasContent(es[1..][j].event);
        assert es[k + 1] == es[1..][k];
        assert forall j :: 1 <= j < k + 1 ==> es[j] == es[1..][j - 1];
      } else {
        assert forall k :: 1 <= k < |es| ==> es[k] == es[1..][k - 1];
      }
    }
  }

  /** What both clients report of a stream they accept: the answer is the contents of the first choices
      one after the other, without white space at its ends; usage, response id and finish reason are
      the last ones given; and the time to first token is that of the first event with content. */
  lemma ReportIsOfTheEvents(d: Decoder, lines: seq<Line>)
    requires Decode(d, lines).Some?
    ensures HarnessFold(d, lines, EMPTY).Some? && PodFold(d, lines, EMPTY).Some?
    ensures var es := Decode(d, lines).value;
            forall r :: r == HarnessFold(d, lines, EMPTY).value || r == PodFold(d, lines, EMPTY).value ==>
              && Answer(d, r) == d.Strip(Contents(es))
              && IsLast(Usages(es), None, r.usage)
              && IsLast(Ids(es), "", r.responseId)
              && IsLast(FinishReasons(es), "", r.finishReason)
              && IsFirstContent(es, r.ttft)
  {
    var es := Decode(d, lines).value;
    HarnessMeetsReference(d, lines, EMPTY);
    PodMeetsReference(d, lines, EMPTY);
    TextsConcatenate(es);
    LastFields(es);
    FirstContent(es);
    assert [] + Texts(es) == Texts(es);
  }

  /** The exit test of both clients in terms of the stream: status 200, the expected answer, and at
      least one event with content (which only an empty expectation does not already demand). */
  lemma PassesIffAnswered(d: Decoder, lines: seq<Line>, status: int, expected: string)
    requires Decode(d, lines).Some?
    ensures HarnessFold(d, lines, EMPTY).Some? && PodFold(d, lines, EMPTY).Some?
    ensures var es := Decode(d, lines).value;
            var pass := && status == 200
                        && d.Strip(Contents(es)) == expected
                        && exists k :: 0 <= k < |es| && HasContent(es[k].event);
            && (Passes(d, HarnessFold(d, lines, EMPTY).value, status, expected) <==> pass)
            && (Passes(d, PodFold(d, lines, EMPTY).value, status, expected) <==> pass)
  {
    ReportIsOfTheEvents(d, lines);
  }
}
