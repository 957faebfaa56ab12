/** `handle`: load the script, run every probe in declaration order, collect
    the failure texts, and render the run as an HTTP reply
    (`handleErr` / `handleSuccess`). */
module Runner {
  import opened Strings
  import opened Probes

  /** What `parseScript` yields: the probes, or the load error's text. */
  datatype Script = Loaded(tests: seq<Probe>) | LoadFailed(reason: string)

  /** Status code and body written to the caller. */
  datatype Reply = Reply(status: int, body: string)

  const FailurePrefix: string := "Tests faiure: "
  const SuccessText: string := "Tests success"

  /** `handleErr`: status 500, the error's text after the (misspelt) prefix. */
  function HandleErr(message: string): (r: Reply)
    ensures r.status == 500
    ensures |r.body| >= |FailurePrefix| && r.body[..|FailurePrefix|] == FailurePrefix
    ensures r.body[|FailurePrefix|..] == message
  {
    Reply(500, FailurePrefix + message)
  }

  /** `handleSuccess`: status 200 and a fixed confirmation text. */
  function HandleSuccess(): (r: Reply)
    ensures r.status == 200 && r.body == SuccessText
  {
    Reply(200, SuccessText)
  }

  /** The verdict of each probe on the exchange observed for it. */
  function Verdicts(tests: seq<Probe>, observed: seq<Exchange>): seq<Outcome>
    requires |tests| == |observed|
  {
    seq(|tests|, i requires 0 <= i < |tests| => ExecuteTest(tests[i], observed[i]))
  }

  /** What one verdict adds to `errs`. */
  function Collected(o: Outcome): seq<string>
  {
    match o
    case Pass => []
    case Fail(m) => [m]
  }

  /** The failure texts of the verdicts at indices `lo` to `hi - 1`, in order. */
  function Failures(vs: seq<Outcome>, lo: nat, hi: nat): seq<string>
    requires lo <= hi <= |vs|
    decreases hi - lo
  {
    if hi == lo then [] else Failures(vs, lo, hi - 1) + Collected(vs[hi - 1])
  }

  /** The failure texts of a whole run, in order: what `errs` ends as. */
  function FailureMessages(vs: seq<Outcome>): seq<string>
  {
    Failures(vs, 0, |vs|)
  }

  /** A stretch of verdicts collects nothing exactly when all of them pass. */
  lemma {:induction false} NoFailuresIffAllPass(vs: seq<Outcome>, lo: nat, hi: nat)
    requires lo <= hi <= |vs|
    ensures Failures(vs, lo, hi) == [] <==> forall i :: lo <= i < hi ==> vs[i].Pass?
    decreases hi - lo
  {
    if hi > lo {
      NoFailuresIffAllPass(vs, lo, hi - 1);
    }
  }

  /** Running two stretches of probes one after the other collects the
      failures of the first, then those of the second: nothing is lost,
      duplicated or reordered. */
  lemma {:induction false} FailuresAppend(vs: seq<Outcome>, lo: nat, mid: nat, hi: nat)
    requires lo <= mid <= hi <= |vs|
    ensures Failures(vs, lo, hi) == Failures(vs, lo, mid) + Failures(vs, mid, hi)
    decreases hi - mid
  {
    if hi > mid {
      FailuresAppend(vs, lo, mid, hi - 1);
    }
  }

  /** Every failing probe contributes its own text. */
  lemma {:induction false} FailingProbeCollected(vs: seq<Outcome>, k: nat)
    requires k < |vs| && vs[k].Fail?
    ensures vs[k].message in FailureMessages(vs)
  {
    FailuresAppend(vs, 0, k + 1, |vs|);
  }

  /** The number of failing verdicts at indices `lo` to `hi - 1`. */
  function FailCount(vs: seq<Outcome>, lo: nat, hi: nat): nat
    requires lo <= hi <= |vs|
    decreases hi - lo
  {
    if hi == lo then 0 else FailCount(vs, lo, hi - 1) + (if vs[hi - 1].Fail? then 1 else 0)
  }

  /** Every collected text is the failure of some probe, and exactly one
      text is collected per failing probe. */
  lemma {:induction false} CollectedFromFailingProbes(vs: seq<Outcome>, lo: nat, hi: nat)
    requires lo <= hi <= |vs|
    ensures forall m :: m in Failures(vs, lo, hi) ==> exists i :: lo <= i < hi && vs[i] == Fail(m)
    ensures |Failures(vs, lo, hi)| == FailCount(vs, lo, hi)
    decreases hi - lo
  {
    if hi > lo {
      CollectedFromFailingProbes(vs, lo, hi - 1);
    }
  }

  /** When exactly one probe fails, the run collects exactly its text. */
  lemma OnlyOneFailure(vs: seq<Outcome>, k: nat)
    requires k < |vs| && vs[k].Fail?
    requires forall i :: 0 <= i < |vs| && i != k ==> vs[i].Pass?
    ensures FailureMessages(vs) == [vs[k].message]
  {
    NoFailuresIffAllPass(vs, 0, k);
    NoFailuresIffAllPass(vs, k + 1, |vs|);
    FailuresAppend(vs, 0, k + 1, |vs|);
  }

  /** The loop of `handle`: every probe runs, whatever happened to the
      earlier ones, and each failure text is appended to `errs` in turn. */
  method RunProbes(tests: seq<Probe>, observed: seq<Exchange>) returns (errs: seq<string>)
    requires |tests| == |observed|
    ensures errs == FailureMessages(Verdicts(tests, observed))
    ensures errs == [] <==> forall i :: 0 <= i < |tests| ==> ExecuteTest(tests[i], observed[i]).Pass?
  {
    ghost var vs := Verdicts(tests, observed);
    errs := [];
    var i := 0;
    while i < |tests|
      invariant 0 <= i <= |tests|
      invariant errs == Failures(vs, 0, i)
    {
      var outcome := ExecuteTest(tests[i], observed[i]);
      assert outcome == vs[i];
      if outcome.Fail? {
        errs := errs + [outcome.message];
      }
      i := i + 1;
    }
    assert forall k :: 0 <= k < |tests| ==> vs[k] == ExecuteTest(tests[k], observed[k]);
    NoFailuresIffAllPass(vs, 0, |vs|);
  }

  /** `handle`: a load error is reported at once; otherwise every probe runs,
      failing or not, and the reply is 200 "Tests success" when nothing
      failed, else 500 with the failure texts joined by newlines. */
  method Handle(script: Script, observed: seq<Exchange>) returns (reply: Reply)
    requires script.Loaded? ==> |observed| == |script.tests|
    ensures script.LoadFailed? ==> reply == HandleErr(script.reason)
    ensures script.Loaded? ==>
      var errs := FailureMessages(Verdicts(script.tests, observed));
      reply == if errs == [] then HandleSuccess() else HandleErr(Join(errs, "\n"))
    ensures reply.status == 200 <==>
      script.Loaded? && forall i :: 0 <= i < |script.tests| ==> ExecuteTest(script.tests[i], observed[i]).Pass?
  {
    match script
    case LoadFailed(reason) =>
      reply := HandleErr(reason);
    case Loaded(tests) =>
      var errs := RunProbes(tests, observed);
      if |errs| > 0 {
        reply := HandleErr(Join(errs, "\n"));
      } else {
        reply := HandleSuccess();
      }
  }

  /** When no failure text contains a newline, splitting the failure reply's
      body after the prefix recovers each probe's failure text. */
  lemma FailureReplyListsEachFailure(errs: seq<string>)
    requires errs != []
    requires forall m :: m in errs ==> '\n' !in m
    ensures Split(HandleErr(Join(errs, "\n")).body[|FailurePrefix|..], '\n') == errs
  {
    forall i | 0 <= i < |errs| ensures '\n' !in errs[i] {
      assert errs[i] in errs;
    }
    assert "\n" == ['\n'];
    SplitJoin(errs, '\n');
  }
}
