/** The paginated fetch loop of retrieveAwsLog: send the request, print every
    message of the page, stop when the forward token is absent or repeats the
    token just sent, otherwise adopt the forward token as the next cursor; a
    failed call ends the loop at once.

    The remote service is replaced by a finite script: the k-th call is
    answered by the k-th response. When the script runs out before the loop
    stops, the model stops too, with outcome Exhausted. */
module Retrieve {
  import opened Wrappers
  import opened CloudWatch

  /** How a run of the loop ended. */
  datatype Outcome =
    | Finished              // the termination rule fired
    | Failed(reason: string) // a call failed; the loop returned
    | Exhausted             // the script had no answer left

  /** What a run of the loop produced: the printed messages (one `Println`
      each), the requests sent
      (one per response consumed), and how it ended. */
  datatype Trace = Trace(output: seq<string>, requests: seq<GetLogEventsInput>, outcome: Outcome)

  /** The termination test, as the loop writes it: the forward token is
      absent, or a token was sent and the forward token equals it. Put
      plainly: the forward token is absent or repeats the one sent, and with
      no token sent only an absent forward token stops the loop. */
  function Stops(sent: Option<Token>, forward: Option<Token>): (stop: bool)
    ensures stop <==> forward == None || forward == sent
    ensures sent == None ==> (stop <==> forward == None)
  {
    forward.None? || (sent.Some? && sent.value == forward.value)
  }

  /** A response after which the loop goes round again. */
  predicate Advances(input: GetLogEventsInput, resp: GetLogEventsResponse) {
    resp.Page? && !Stops(input.nextToken, resp.nextForwardToken)
  }

  /** The messages printed for a sequence of responses: the messages of each
      page in order, pages in order, nothing for a failed call. */
  function Printed(resps: seq<GetLogEventsResponse>): seq<string> {
    if |resps| == 0 then [] else Printed(resps[..|resps| - 1]) + Messages(resps[|resps| - 1])
  }

  /** The requests of a run so far: the first is `init`, there are no more
      than the script answers, and after each but the last the loop went
      round again, with the next request equal to the previous one except for
      its cursor, which is the page's forward token. */
  ghost predicate Chained(init: GetLogEventsInput, script: seq<GetLogEventsResponse>, requests: seq<GetLogEventsInput>) {
    && |requests| <= |script|
    && (|requests| > 0 ==> requests[0] == init)
    && (forall i :: 0 <= i < |requests| - 1 ==>
          && Advances(requests[i], script[i])
          && requests[i + 1] == requests[i].(nextToken := script[i].nextForwardToken))
  }

  /** The outcome matches the last response consumed: the termination rule
      fired on a page, the call failed, or the script ran out with the loop
      still going. */
  ghost predicate EndsAs(script: seq<GetLogEventsResponse>, requests: seq<GetLogEventsInput>, outcome: Outcome)
    requires |requests| <= |script|
  {
    var n := |requests|;
    match outcome
    case Finished =>
      n > 0 && script[n - 1].Page? && Stops(requests[n - 1].nextToken, script[n - 1].nextForwardToken)
    case Failed(e) =>
      n > 0 && script[n - 1] == CallFailed(e)
    case Exhausted =>
      n == |script| && (n > 0 ==> Advances(requests[n - 1], script[n - 1]))
  }

  /** The declarative description of a run from the first request `init`
      against `script`: the requests are chained, the output is what the
      consumed responses print, and the outcome matches the last of them. */
  ghost predicate IsRun(init: GetLogEventsInput, script: seq<GetLogEventsResponse>, t: Trace) {
    && Chained(init, script, t.requests)
    && t.output == Printed(script[..|t.requests|])
    && EndsAs(script, t.requests, t.outcome)
  }

  /** The loop as a recursive function over the remaining script. It sends
      a request exactly when the script has an answer left, never more than
      the script answers, starting with `input`; and it reports Exhausted only
      when it consumed the whole script. */
  function Run(input: GetLogEventsInput, script: seq<GetLogEventsResponse>): (t: Trace)
    ensures |t.requests| <= |script|
    ensures |t.requests| > 0 <==> |script| > 0
    ensures |t.requests| > 0 ==> t.requests[0] == input
    ensures t.outcome == Exhausted ==> |t.requests| == |script|
    decreases |script|
  {
    if |script| == 0 then
      Trace([], [], Exhausted)
    else
      match script[0]
      case CallFailed(e) =>
        Trace([], [input], Failed(e))
      case Page(messages, forward) =>
        if Stops(input.nextToken, forward) then
          Trace(messages, [input], Finished)
        else
          var rest := Run(input.(nextToken := forward), script[1..]);
          Trace(messages + rest.output, [input] + rest.requests, rest.outcome)
  }

  /** What the first response prints, followed by what the rest print. */
  lemma {:induction false} PrintedCons(resps: seq<GetLogEventsResponse>)
    requires |resps| > 0
    ensures Printed(resps) == Messages(resps[0]) + Printed(resps[1..])
    decreases |resps|
  {
    if |resps| == 1 {
      assert resps[..0] == [];
      assert resps[1..] == [];
    } else {
      var init := resps[..|resps| - 1];
      assert init[..|init| - 1] == resps[..|resps| - 2];
      PrintedCons(init);
      assert init[1..] == resps[1..][..|resps| - 2];
      assert init[0] == resps[0];
    }
  }

  /** The recursive loop satisfies the declarative description. */
  lemma {:induction false} RunIsRun(init: GetLogEventsInput, script: seq<GetLogEventsResponse>)
    ensures IsRun(init, script, Run(init, script))
    decreases |script|
  {
    if |script| == 0 {
      assert script[..0] == [];
    } else {
      assert script[..1] == [script[0]];
      assert Printed([script[0]]) == Messages(script[0]) by {
        assert [script[0]][..0] == [];
      }
      match script[0]
      case CallFailed(e) =>
      case Page(messages, forward) =>
        if !Stops(init.nextToken, forward) {
          var next := init.(nextToken := forward);
          var tail := script[1..];
          var rest := Run(next, tail);
          RunIsRun(next, tail);
          var t := Run(init, script);
          var n := |t.requests|;
          assert n == |rest.requests| + 1;
          assert forall i :: 0 < i < n ==> t.requests[i] == rest.requests[i - 1];
          assert forall i :: 0 < i < n ==> script[i] == tail[i - 1];
          forall i | 0 <= i < n - 1
            ensures Advances(t.requests[i], script[i])
            ensures t.requests[i + 1] == t.requests[i].(nextToken := script[i].nextForwardToken)
          {
            if i > 0 {
              assert Advances(rest.requests[i - 1], tail[i - 1]);
            }
          }
          assert script[..n][1..] == tail[..n - 1];
          PrintedCons(script[..n]);
        }
    }
  }

  /** The requests of two runs against the same script agree on every index
      both reach. */
  lemma {:induction false} RunsAgree(init: GetLogEventsInput, script: seq<GetLogEventsResponse>, t1: Trace, t2: Trace, k: nat)
    requires IsRun(init, script, t1) && IsRun(init, script, t2)
    requires k < |t1.requests| && k < |t2.requests|
    ensures t1.requests[k] == t2.requests[k]
    decreases k
  {
    if k > 0 {
      RunsAgree(init, script, t1, t2, k - 1);
    }
  }

  /** The declarative description determines the run: given the first
      request and the script, there is exactly one trace. */
  lemma IsRunDeterministic(init: GetLogEventsInput, script: seq<GetLogEventsResponse>, t1: Trace, t2: Trace)
    requires IsRun(init, script, t1) && IsRun(init, script, t2)
    ensures t1 == t2
  {
    var n1, n2 := |t1.requests|, |t2.requests|;
    forall k | 0 <= k < n1 && k < n2
      ensures t1.requests[k] == t2.requests[k]
    {
      RunsAgree(init, script, t1, t2, k);
    }
    if n1 < n2 {
      assert false;
    }
    if n2 < n1 {
      assert false;
    }
    assert t1.requests == t2.requests;
  }

  /** A trace satisfies the declarative description exactly when it is the
      trace of the recursive loop. */
  lemma RunCharacterized(init: GetLogEventsInput, script: seq<GetLogEventsResponse>, t: Trace)
    ensures IsRun(init, script, t) <==> t == Run(init, script)
  {
    RunIsRun(init, script);
    if IsRun(init, script, t) {
      IsRunDeterministic(init, script, t, Run(init, script));
    }
  }

  /** The trace a run produces is the recursive loop's. */
  lemma TraceOfRun(init: GetLogEventsInput, script: seq<GetLogEventsResponse>, t: Trace)
    requires IsRun(init, script, t)
    ensures t == Run(init, script)
  {
    RunCharacterized(init, script, t);
  }

  /** Sending one more request keeps the requests chained. */
  lemma ChainedExtend(
    init: GetLogEventsInput, script: seq<GetLogEventsResponse>,
    requests: seq<GetLogEventsInput>, input: GetLogEventsInput)
    requires Chained(init, script, requests) && |requests| < |script|
    requires |requests| == 0 ==> input == init
    requires |requests| > 0 ==>
      && Advances(requests[|requests| - 1], script[|requests| - 1])
      && input == requests[|requests| - 1].(nextToken := script[|requests| - 1].nextForwardToken)
    ensures Chained(init, script, requests + [input])
  {
  }

  /** The messages printed for one more response are appended at the end. */
  lemma PrintedSnoc(script: seq<GetLogEventsResponse>, i: nat)
    requires i < |script|
    ensures Printed(script[..i + 1]) == Printed(script[..i]) + Messages(script[i])
  {
    assert script[..i + 1][..i] == script[..i];
  }

  /** The inner loop of retrieveAwsLog (awsExportLog.go, lines 104 to 106):
      print the messages of one page, one `Println` each, in the order
      received. A message holding newlines prints as several lines. */
  method PrintPage(printed: seq<string>, messages: seq<string>) returns (output: seq<string>)
    ensures output == printed + messages
  {
    output := printed;
    var j := 0;
    while j < |messages|
      invariant 0 <= j <= |messages|
      invariant output == printed + messages[..j]
    {
      output := output + [messages[j]];
      j := j + 1;
      assert messages[..j] == messages[..j - 1] + [messages[j - 1]];
    }
    assert messages[..j] == messages;
  }

  /** retrieveAwsLog's loop (awsExportLog.go, lines 97 to 115) against a
      scripted remote: the request variable is updated in place and each
      page's messages are printed one by one. */
  method FetchAll(init: GetLogEventsInput, script: seq<GetLogEventsResponse>)
    returns (output: seq<string>, requests: seq<GetLogEventsInput>, outcome: Outcome)
    ensures |requests| <= |script|
    ensures IsRun(init, script, Trace(output, requests, outcome))
    ensures Trace(output, requests, outcome) == Run(init, script)
  {
    var input := init;
    output := [];
    requests := [];
    var i := 0;
    while true
      invariant i == |requests| <= |script|
      invariant Chained(init, script, requests)
      invariant i > 0 ==> Advances(requests[i - 1], script[i - 1])
      invariant input == if i == 0 then init else requests[i - 1].(nextToken := script[i - 1].nextForwardToken)
      invariant output == Printed(script[..i])
      decreases |script| - i
    {
      if i == |script| {
        outcome := Exhausted;
        assert IsRun(init, script, Trace(output, requests, outcome));
        TraceOfRun(init, script, Trace(output, requests, outcome));
        return;
      }
      ChainedExtend(init, script, requests, input);
      PrintedSnoc(script, i);
      requests := requests + [input];
      var resp := script[i];
      i := i + 1;
      match resp {
        case CallFailed(e) =>
          outcome := Failed(e);
          assert IsRun(init, script, Trace(output, requests, outcome));
          TraceOfRun(init, script, Trace(output, requests, outcome));
          return;
        case Page(messages, forward) =>
          output := PrintPage(output, messages);
          if forward.None? || (input.nextToken.Some? && input.nextToken.value == forward.value) {
            outcome := Finished;
            assert IsRun(init, script, Trace(output, requests, outcome));
            TraceOfRun(init, script, Trace(output, requests, outcome));
            return;
          }
          input := input.(nextToken := forward);
      }
    }
  }

  /** Every request after the first carries, as its cursor, the forward token
      of the page just received, and that token is present; apart from the
      cursor every request is the first one unchanged. */
  lemma {:induction false} CursorFollowsForwardToken(init: GetLogEventsInput, script: seq<GetLogEventsResponse>, t: Trace, k: nat)
    requires IsRun(init, script, t)
    requires k < |t.requests|
    ensures t.requests[k] == init.(nextToken := t.requests[k].nextToken)
    ensures k > 0 ==> t.requests[k].nextToken == script[k - 1].nextForwardToken
    ensures k > 0 ==> t.requests[k].nextToken.Some?
    decreases k
  {
    if k > 0 {
      CursorFollowsForwardToken(init, script, t, k - 1);
      assert Advances(t.requests[k - 1], script[k - 1]);
    }
  }

  /** With no cursor on the first request (as configured), the repeat check
      cannot fire on the first page: the loop stops after it only if its
      forward token is absent. Every later stop compares the forward token
      with the previous page's token. */
  lemma FirstStopNeedsAbsentToken(init: GetLogEventsInput, script: seq<GetLogEventsResponse>, t: Trace)
    requires init.nextToken == None
    requires IsRun(init, script, t)
    requires t.outcome == Finished
    ensures |t.requests| == 1 ==> script[0].nextForwardToken == None
    ensures |t.requests| > 1 ==>
      var n := |t.requests|;
      || script[n - 1].nextForwardToken == None
      || script[n - 1].nextForwardToken == script[n - 2].nextForwardToken
  {
    var n := |t.requests|;
    CursorFollowsForwardToken(init, script, t, n - 1);
  }

  /** A failed call ends the run with the output of the earlier pages kept
      and nothing printed for the failed call; every earlier response was a
      page after which the loop went on. */
  lemma FailureKeepsEarlierOutput(init: GetLogEventsInput, script: seq<GetLogEventsResponse>, t: Trace)
    requires IsRun(init, script, t)
    requires t.outcome.Failed?
    ensures |t.requests| > 0
    ensures script[|t.requests| - 1] == CallFailed(t.outcome.reason)
    ensures t.output == Printed(script[..|t.requests| - 1])
    ensures forall i :: 0 <= i < |t.requests| - 1 ==> script[i].Page?
  {
    PrintedSnoc(script, |t.requests| - 1);
  }

  /** Two scripts that agree on every failure and on every page's forward
      token, whatever messages their pages hold. */
  ghost predicate SameCursors(s1: seq<GetLogEventsResponse>, s2: seq<GetLogEventsResponse>) {
    && |s1| == |s2|
    && forall i :: 0 <= i < |s1| ==>
         if s1[i].CallFailed? then s2[i] == s1[i]
         else s2[i].Page? && s2[i].nextForwardToken == s1[i].nextForwardToken
  }

  /** Only the cursors decide when the loop stops: the messages of a page,
      and in particular an empty page, change the output but neither the
      requests sent nor the outcome. */
  lemma {:induction false} MessagesDoNotSteer(input: GetLogEventsInput, s1: seq<GetLogEventsResponse>, s2: seq<GetLogEventsResponse>)
    requires SameCursors(s1, s2)
    ensures Run(input, s1).requests == Run(input, s2).requests
    ensures Run(input, s1).outcome == Run(input, s2).outcome
    decreases |s1|
  {
    if |s1| > 0 && s1[0].Page? && !Stops(input.nextToken, s1[0].nextForwardToken) {
      assert SameCursors(s1[1..], s2[1..]) by {
        forall i | 0 <= i < |s1| - 1
          ensures s1[1..][i] == s1[i + 1] && s2[1..][i] == s2[i + 1]
        {
        }
      }
      MessagesDoNotSteer(input.(nextToken := s1[0].nextForwardToken), s1[1..], s2[1..]);
    }
  }

  /** A remote that always answers with a page and a present forward token
      different from the cursor just sent is never stopped by the loop: the
      run consumes the whole script, however long it is. The loop alone gives
      no bound on the number of calls. */
  lemma FreshTokensNeverStop(init: GetLogEventsInput, script: seq<GetLogEventsResponse>)
    requires forall i :: 0 <= i < |script| ==> script[i].Page? && script[i].nextForwardToken.Some?
    requires |script| > 0 ==> script[0].nextForwardToken != init.nextToken
    requires forall i :: 0 < i < |script| ==> script[i].nextForwardToken != script[i - 1].nextForwardToken
    ensures Run(init, script).outcome == Exhausted
    ensures |Run(init, script).requests| == |script|
  {
    var t := Run(init, script);
    RunIsRun(init, script);
    var n := |t.requests|;
    if n > 0 {
      CursorFollowsForwardToken(init, script, t, n - 1);
    }
  }

  /** Two pages of three and two messages, the second without a forward
      token: five lines, in page order and then in order within each page. */
  lemma TwoPagesThenEnd(init: GetLogEventsInput)
    requires init.nextToken == None
    ensures var t := Run(init, [Page(["a", "b", "c"], Some("t1")), Page(["d", "e"], None)]);
      && t.output == ["a", "b", "c", "d", "e"]
      && |t.requests| == 2
      && t.outcome == Finished
  {
  }

  /** A page with token X followed by a second page also carrying X: the loop
      stops after the second page, not after the first, and never asks for a
      third. */
  lemma RepeatedTokenStops(init: GetLogEventsInput)
    requires init.nextToken == None
    ensures var t := Run(init, [Page(["a"], Some("X")), Page(["b"], Some("X")), Page(["c"], None)]);
      && t.output == ["a", "b"]
      && t.requests == [init, init.(nextToken := Some("X"))]
      && t.outcome == Finished
  {
  }
}
