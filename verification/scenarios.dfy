/** Concrete probes and range texts, worked through the model. */
module Scenarios {
  import opened Strings
  import opened Strconv
  import opened CodeRange
  import opened Probes
  import opened Runner

  lemma AtoiExamples()
    ensures Atoi("200") == Some(200) && Atoi("299") == Some(299)
    ensures Atoi("300") == Some(300) && Atoi("500") == Some(500) && Atoi("599") == Some(599)
    ensures Atoi("+5") == Some(5) && Atoi("-0") == Some(0)
    ensures Atoi("") == None && Atoi("+") == None && Atoi("2x") == None
  {
    assert "200"[..2] == "20" && "20"[..1] == "2" && "2"[..0] == "";
    assert "299"[..2] == "29" && "29"[..1] == "2";
    assert "300"[..2] == "30" && "30"[..1] == "3";
    assert "500"[..2] == "50" && "50"[..1] == "5";
    assert "599"[..2] == "59" && "59"[..1] == "5";
    assert "+5"[1..] == "5" && "5"[..0] == "";
    assert "-0"[1..] == "0" && "0"[..0] == "";
  }

  lemma Atoi404()
    ensures Atoi("404") == Some(404)
  {
    assert "404"[..2] == "40" && "40"[..1] == "4" && "4"[..0] == "";
  }

  /** The bounds of `A-B` are taken as written. */
  lemma ParseOrdinaryRange()
    ensures ParseExpectedCodesRange("200-299") == Parsed(299, 200, false)
  {
    AtoiExamples();
    assert "200-299" == "200" + "-" + "299" + "";
    ParseTwoSegments("200", "299", "");
  }

  /** A third segment is ignored. */
  lemma ParseExtraSegment()
    ensures ParseExpectedCodesRange("200-299-404") == Parsed(299, 200, false)
  {
    AtoiExamples();
    assert "200-299-404" == "200" + "-" + "299" + "-404";
    ParseTwoSegments("200", "299", "-404");
  }

  /** One code is both bounds. */
  lemma ParseSingleExample()
    ensures ParseExpectedCodesRange("404") == Parsed(404, 404, false)
  {
    Atoi404();
    ParseSingleCode("404");
  }

  /** An inverted range is accepted as it stands. */
  lemma ParseInvertedRange()
    ensures ParseExpectedCodesRange("299-200") == Parsed(200, 299, false)
  {
    AtoiExamples();
    assert "299-200" == "299" + "-" + "200" + "";
    ParseTwoSegments("299", "200", "");
  }

  /** A bad first segment gives (0, 0) with an error. */
  lemma ParseBadCode()
    ensures ParseExpectedCodesRange("abc") == Parsed(0, 0, true)
  {
    ParseSingleCode("abc");
  }

  /** A bad second segment keeps the minimum already read. */
  lemma ParseBadMaximum()
    ensures ParseExpectedCodesRange("200-abc") == Parsed(0, 200, true)
  {
    AtoiExamples();
    assert "200-abc" == "200" + "-" + "abc" + "";
    ParseTwoSegments("200", "abc", "");
  }

  /** A leading dash makes the first segment empty, so a negative code can
      never be written as a minimum. */
  lemma ParseLeadingDash()
    ensures ParseExpectedCodesRange("-5") == Parsed(0, 0, true)
  {
    AtoiExamples();
    assert "-5" == "" + "-" + "5" + "";
    ParseTwoSegments("", "5", "");
  }

  function HealthProbe(): Probe
  {
    Probe("http://x/ok", "200-299", "GET", "", map[])
  }

  /** A 204 with an empty body passes a 200-299 probe with no substring. */
  lemma NoContentPasses()
    ensures ExecuteTest(HealthProbe(), Responded(204, "")) == Pass
  {
    ParseOrdinaryRange();
  }

  lemma ParseCode200()
    ensures ParseExpectedCodesRange("200") == Parsed(200, 200, false)
  {
    AtoiExamples();
    ParseSingleCode("200");
  }

  /** "not ready yet" contains "ready", so this probe passes. */
  lemma ReadySubstringPasses()
    ensures ExecuteTest(Probe("http://x/", "200", "GET", "ready", map[]), Responded(200, "not ready yet")) == Pass
  {
    var t := Probe("http://x/", "200", "GET", "ready", map[]);
    ParseCode200();
    assert "not ready yet"[4..9] == "ready";
    assert OccursAt("ready", "not ready yet", 4);
    ContentCheck(t, 200, "not ready yet");
  }

  /** A body without the substring fails with the message quoting both. */
  lemma MissingSubstringFails()
    ensures ExecuteTest(Probe("http://x/", "200", "GET", "ready", map[]), Responded(200, "booting"))
      == Fail(ContentMismatchMessage("ready", "booting"))
  {
    ParseCode200();
    FirstCharAbsent("ready", "booting");
    ContentCheck(Probe("http://x/", "200", "GET", "ready", map[]), 200, "booting");
  }

  /** As written the status check lets a 200 through a 500-599 probe. */
  lemma OutOfBandCodePasses()
    ensures ExecuteTest(Probe("http://x/", "500-599", "GET", "", map[]), Responded(200, "")) == Pass
  {
    AtoiExamples();
    assert "500-599" == "500" + "-" + "599" + "";
    ParseTwoSegments("500", "599", "");
  }

  function InvertedProbe(): Probe
  {
    Probe("http://x/", "300-200", "GET", "", map[])
  }

  /** The rejection does fire for a code strictly inside an inverted range. */
  lemma InvertedRangeRejects()
    ensures ExecuteTest(InvertedProbe(), Responded(250, "")) == Fail(RangeMismatchMessage(250, "300-200", ""))
  {
    AtoiExamples();
    assert "300-200" == "300" + "-" + "200" + "";
    ParseTwoSegments("300", "200", "");
  }

  /** A bad second segment is not harmless: the bounds left behind,
      max 0 and min 200, reject every status strictly between them. */
  lemma BadMaximumRejects()
    ensures ExecuteTest(Probe("http://x/", "200-abc", "GET", "", map[]), Responded(150, ""))
      == Fail(RangeMismatchMessage(150, "200-abc", ""))
  {
    ParseBadMaximum();
  }

  /** Two probes, the first failing (for instance `InvertedProbe` on a 250)
      and the second passing (for instance `HealthProbe` on a 204): the run
      collects exactly one failure text, and that text is the whole report. */
  lemma OneOfTwoFails(p: Probe, x: Exchange, q: Probe, y: Exchange)
    requires ExecuteTest(p, x).Fail? && ExecuteTest(q, y).Pass?
    ensures var errs := FailureMessages(Verdicts([p, q], [x, y]));
      errs == [ExecuteTest(p, x).message] && Join(errs, "\n") == ExecuteTest(p, x).message
  {
    var vs := Verdicts([p, q], [x, y]);
    OnlyOneFailure(vs, 0);
  }
}
