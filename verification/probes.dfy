/** One probe (`test` in main.go) and the verdict `executeTest` reaches on it.
    The HTTP exchange itself is an input: `Exchange` says how far the request
    got and what came back. */
module Probes {
  import opened Strings
  import opened Strconv
  import opened CodeRange

  /** A probe definition as read from the script. `verb` (the `method` field), `url` and
      `headers` only shape the outbound request, whose result arrives as an
      `Exchange`. */
  datatype Probe = Probe(
    url: string,
    codeRange: string,
    verb: string,
    contains: string,
    headers: map<string, string>)

  /** What happened to the one request sent for a probe. */
  datatype Exchange =
    | RequestInvalid(reason: string)              // http.NewRequest refused method or URL
    | TransportFailed(reason: string)             // client.Do returned an error
    | BodyReadFailed(reason: string, status: int) // reading the response body failed
    | Responded(status: int, body: string)        // status code and the whole body

  /** `nil` or the error `executeTest` returns, by its text. */
  datatype Outcome = Pass | Fail(message: string)

  /** The status check exactly as written: a code is rejected when it is
      below the minimum AND above the maximum. */
  predicate RangeRejects(code: int, range: Parsed)
  {
    code < range.minCode && code > range.maxCode
  }

  function RangeMismatchMessage(code: int, rangeText: string, body: string): string
  {
    "test failed: the response code " + Itoa(code) + " is not in expected range: "
      + rangeText + ", resp body: " + body
  }

  function ContentMismatchMessage(contains: string, body: string): string
  {
    "test failed: could not find expected string '" + contains + "' in response body '" + body + "'"
  }

  function TransportMessage(reason: string): string
  {
    "request failed with error: " + reason
  }

  function BodyReadMessage(reason: string, status: int): string
  {
    "reading of the request body failed with error: " + reason + ", status: " + Itoa(status)
  }

  /** A text placed after a fixed prefix occurs in the result. */
  lemma SuffixOccurs(prefix: string, s: string, suffix: string)
    ensures IsSubstring(s, prefix + s + suffix)
  {
    assert (prefix + s + suffix)[|prefix|..|prefix| + |s|] == s;
    assert OccursAt(s, prefix + s + suffix, |prefix|);
  }

  /** The failure texts of the non-response exchanges quote their cause
      (and, for a failed body read, the status). */
  lemma ReasonQuoted(x: Exchange)
    ensures x.TransportFailed? ==> IsSubstring(x.reason, TransportMessage(x.reason))
    ensures x.BodyReadFailed? ==>
      IsSubstring(x.reason, BodyReadMessage(x.reason, x.status))
      && IsSubstring(Itoa(x.status), BodyReadMessage(x.reason, x.status))
  {
    if x.TransportFailed? {
      SuffixOccurs("request failed with error: ", x.reason, "");
      assert "request failed with error: " + x.reason + "" == TransportMessage(x.reason);
    }
    if x.BodyReadFailed? {
      var head := "reading of the request body failed with error: ";
      var tail := ", status: " + Itoa(x.status);
      SuffixOccurs(head, x.reason, tail);
      assert head + x.reason + tail == BodyReadMessage(x.reason, x.status);
      SuffixOccurs(head + x.reason + ", status: ", Itoa(x.status), "");
      assert head + x.reason + ", status: " + Itoa(x.status) + "" == BodyReadMessage(x.reason, x.status);
    }
  }

  /** `executeTest`, given how far the request got. The range is parsed
      first, but its error is overwritten by the next assignment to `err`
      and never looked at: only the two bounds are used. */
  function ExecuteTest(t: Probe, x: Exchange): (o: Outcome)
    ensures !x.Responded? ==> o.Fail?
    ensures x.RequestInvalid? ==> o == Fail(x.reason)
    ensures x.TransportFailed? ==> o.Fail? && IsSubstring(x.reason, o.message)
    ensures x.BodyReadFailed? ==>
      o.Fail? && IsSubstring(x.reason, o.message) && IsSubstring(Itoa(x.status), o.message)
    ensures x.Responded? && t.contains == ""
      ==> (o.Pass? <==> !RangeRejects(x.status, ParseExpectedCodesRange(t.codeRange)))
  {
    var range := ParseExpectedCodesRange(t.codeRange);
    ReasonQuoted(x);
    match x
    case RequestInvalid(reason) => Fail(reason)
    case TransportFailed(reason) => Fail(TransportMessage(reason))
    case BodyReadFailed(reason, status) => Fail(BodyReadMessage(reason, status))
    case Responded(status, body) =>
      if RangeRejects(status, range) then Fail(RangeMismatchMessage(status, t.codeRange, body))
      else if t.contains == "" then Pass
      else if !Contains(body, t.contains) then Fail(ContentMismatchMessage(t.contains, body))
      else Pass
  }

  /** The rejection condition can only hold for an inverted range, and then
      exactly for the codes strictly between the maximum and the minimum. */
  lemma RangeRejectsOnlyInverted(code: int, range: Parsed)
    ensures RangeRejects(code, range) <==> range.maxCode < code < range.minCode
    ensures range.minCode <= range.maxCode ==> !RangeRejects(code, range)
  {
  }

  /** A response passes iff the as-written range condition does not fire and
      either no substring is required or the body contains it. */
  lemma ResponseVerdict(t: Probe, status: int, body: string)
    ensures var range := ParseExpectedCodesRange(t.codeRange);
      ExecuteTest(t, Responded(status, body)).Pass? <==>
        !(range.maxCode < status < range.minCode) && (t.contains == "" || IsSubstring(t.contains, body))
  {
    ContainsIsSubstring(body, t.contains);
  }

  /** With the bounds in order, which includes the default band, the status
      code never decides the verdict: only the body check does. */
  lemma OrderedRangeNeverRejects(t: Probe, status: int, body: string)
    requires ParseExpectedCodesRange(t.codeRange).minCode <= ParseExpectedCodesRange(t.codeRange).maxCode
    ensures ExecuteTest(t, Responded(status, body)).Pass?
      <==> t.contains == "" || IsSubstring(t.contains, body)
  {
    ContainsIsSubstring(body, t.contains);
  }

  /** An empty `code_range` accepts every status code. */
  lemma DefaultRangeAcceptsEveryCode(t: Probe, status: int, body: string)
    requires t.codeRange == ""
    ensures ExecuteTest(t, Responded(status, body)).Pass?
      <==> t.contains == "" || IsSubstring(t.contains, body)
  {
    OrderedRangeNeverRejects(t, status, body);
  }

  /** A range whose first segment is not an integer never fails a probe by
      itself: its bounds are (0, 0), and the probe is judged exactly as with
      the default band. */
  lemma BadRangeBehavesAsDefault(t: Probe, x: Exchange)
    requires t.codeRange != "" && Atoi(Split(t.codeRange, '-')[0]).None?
    ensures ParseExpectedCodesRange(t.codeRange).failed
    ensures ExecuteTest(t, x) == ExecuteTest(t.(codeRange := ""), x)
  {
  }

  /** A bad second segment is not harmless: the bounds it leaves behind,
      max 0 and min Atoi(a), reject every status strictly between them. */
  lemma BadMaximumRejectsBetween(t: Probe, a: string, b: string, lo: int, code: int, body: string)
    requires '-' !in a && '-' !in b
    requires Atoi(a) == Some(lo) && Atoi(b).None?
    requires t.codeRange == a + "-" + b
    requires 0 < code < lo
    ensures ParseExpectedCodesRange(t.codeRange) == Parsed(0, lo, true)
    ensures ExecuteTest(t, Responded(code, body)) == Fail(RangeMismatchMessage(code, t.codeRange, body))
  {
    ParseTwoSegments(a, b, "");
    assert a + "-" + b + "" == a + "-" + b;
  }

  /** Whether a probe passes depends on the parsed bounds only, never on
      whether the parse reported an error. */
  lemma ParseErrorIgnored(t: Probe, u: Probe, x: Exchange)
    requires t.contains == u.contains
    requires ParseExpectedCodesRange(t.codeRange).minCode == ParseExpectedCodesRange(u.codeRange).minCode
    requires ParseExpectedCodesRange(t.codeRange).maxCode == ParseExpectedCodesRange(u.codeRange).maxCode
    ensures ExecuteTest(t, x).Pass? == ExecuteTest(u, x).Pass?
  {
  }

  /** With no required substring the body is never inspected. */
  lemma EmptyContainsIgnoresBody(t: Probe, status: int, body1: string, body2: string)
    requires t.contains == ""
    ensures ExecuteTest(t, Responded(status, body1)).Pass? == ExecuteTest(t, Responded(status, body2)).Pass?
  {
  }

  /** Once the range check lets a response through, a missing substring
      fails the probe with the message that quotes both strings; a present
      one passes it. */
  lemma ContentCheck(t: Probe, status: int, body: string)
    requires t.contains != ""
    requires !RangeRejects(status, ParseExpectedCodesRange(t.codeRange))
    ensures IsSubstring(t.contains, body) ==> ExecuteTest(t, Responded(status, body)) == Pass
    ensures !IsSubstring(t.contains, body)
      ==> ExecuteTest(t, Responded(status, body)) == Fail(ContentMismatchMessage(t.contains, body))
  {
    ContainsIsSubstring(body, t.contains);
  }

  /** A rejected status fails the probe with the message naming the code,
      the range text and the body, before the body check is reached. */
  lemma RangeMismatch(t: Probe, status: int, body: string)
    requires RangeRejects(status, ParseExpectedCodesRange(t.codeRange))
    ensures ExecuteTest(t, Responded(status, body)) == Fail(RangeMismatchMessage(status, t.codeRange, body))
  {
  }
}
