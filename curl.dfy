/**
 * Fetching a room's timetable: `query` runs the download script until it
 * succeeds, retrying the curl failures that mean a busy network and giving
 * up on any other. The script is not run here: its outcomes are given as
 * a sequence, one per attempt.
 */
module Retrieval {
  import opened Text

  /** The curl exit codes that count as a busy network, with their meaning. */
  const TolerableCurlErrorCodes: map<string, string> := map[
    "6" := "Couldn't resolve host. The given remote host was not resolved",
    "35" := "SSL connect error. The SSL handshaking failed.",
    "55" := "Failed sending network data.",
    "56" := "Failure in receiving network data."
  ]

  /** `isTolerableCurlErrorCode`: whether `code` is one of the four keys. */
  function IsTolerableCurlErrorCode(code: string): (r: bool)
    ensures r <==> code == "6" || code == "35" || code == "55" || code == "56"
  {
    code in TolerableCurlErrorCodes
  }

  /**
   * The test `query` applies to the error of a failed run: its text splits
   * on spaces into exactly "exit", "status" and a tolerable code.
   */
  predicate IsTolerableFailure(err: string)
  {
    var parts := Split(err, ' ');
    |parts| == 3 && parts[0] == "exit" && parts[1] == "status" && IsTolerableCurlErrorCode(parts[2])
  }

  /** The error text of a run that exited with status `code`. */
  function ExitStatus(code: string): string
  {
    "exit status " + code
  }

  /**
   * A failure is retried exactly when its text is "exit status 6", "exit
   * status 35", "exit status 55" or "exit status 56".
   */
  lemma TolerableFailureExactly(err: string)
    ensures IsTolerableFailure(err) <==>
      err == ExitStatus("6") || err == ExitStatus("35") ||
      err == ExitStatus("55") || err == ExitStatus("56")
  {
    var parts := Split(err, ' ');
    if IsTolerableFailure(err) {
      JoinSplit(err, ' ');
      assert parts == [parts[0], parts[1], parts[2]];
      JoinThree(parts[0], parts[1], parts[2], ' ');
      assert err == ExitStatus(parts[2]);
    }
    forall code | IsTolerableCurlErrorCode(code) && err == ExitStatus(code)
      ensures IsTolerableFailure(err)
    {
      var ps := ["exit", "status", code];
      assert ' ' !in code;
      JoinThree("exit", "status", code, ' ');
      assert Join(ps, ' ') == err;
      SplitJoin(ps, ' ');
    }
  }

  /** Joining three pieces puts the separator between each pair. */
  lemma JoinThree(a: string, b: string, c: string, sep: char)
    ensures Join([a, b, c], sep) == a + [sep] + b + [sep] + c
  {
    assert [a, b, c][1..] == [b, c];
    assert [b, c][1..] == [c];
    assert Join([c], sep) == c;
    assert Join([b, c], sep) == b + [sep] + c;
  }

  /** What one run of the download script did. */
  datatype Attempt = Succeeded | Failed(err: string)

  /** Whether `query` runs the script again after this attempt. */
  predicate Retried(a: Attempt)
  {
    a.Failed? && IsTolerableFailure(a.err)
  }

  /**
   * How `query` ends: with the path of the downloaded page, with the error
   * the program stops on, or still retrying when the attempts run out.
   */
  datatype QueryOutcome = Fetched(path: string) | Fatal(err: string) | StillRetrying

  /** The first attempt that `query` does not retry, or `|attempts|`. */
  function FirstDecisive(attempts: seq<Attempt>): (k: nat)
    ensures k <= |attempts|
    ensures forall j :: 0 <= j < k ==> Retried(attempts[j])
    ensures k < |attempts| ==> !Retried(attempts[k])
  {
    if |attempts| == 0 then 0
    else if !Retried(attempts[0]) then 0
    else
      var k := FirstDecisive(attempts[1..]) + 1;
      assert forall j :: 1 <= j < k ==> attempts[j] == attempts[1..][j - 1];
      k
  }

  /**
   * `query(room)` over the given outcomes of its runs: it retries tolerable
   * failures, stops on any other failure, and on the first success returns
   * the page's file name, `room + ".html"`.
   */
  method Query(room: string, attempts: seq<Attempt>) returns (r: QueryOutcome)
    ensures var k := FirstDecisive(attempts);
      r == if k == |attempts| then StillRetrying
           else if attempts[k].Succeeded? then Fetched(room + ".html")
           else Fatal(attempts[k].err)
  {
    var n := 0;
    while n < |attempts|
      invariant n <= |attempts|
      invariant forall j :: 0 <= j < n ==> Retried(attempts[j])
    {
      match attempts[n]
      case Succeeded =>
        return Fetched(room + ".html");
      case Failed(err) =>
        var parts := Split(err, ' ');
        if |parts| == 3 && parts[0] == "exit" && parts[1] == "status" && IsTolerableCurlErrorCode(parts[2]) {
          n := n + 1;
        } else {
          return Fatal(err);
        }
    }
    return StillRetrying;
  }
}
