/**
 * The test runner of `CodeExecutionService`: it rejects blank code and tasks
 * without tests, then either runs the submitted script once per test case
 * through the interpreter, or, in the degraded stub mode, looks for each
 * expected output inside the code text. The interpreter is an oracle: the
 * model never spawns a process.
 */
module CodeExecution {
  import opened JavaText
  import opened OutputNormalizer

  /** A test case as the task hands it to `runTests`; the entity allows a
      null input, and `runTests` also tolerates a null expected output. */
  datatype TestCase = TestCase(input: Option<string>, expectedOutput: Option<string>)

  /** What one interpreter invocation (`runProcess`) reports, or the
      exception it raises instead of reporting. */
  datatype ProcessOutcome =
    | Exited(exitCode: int, stdout: string, stderr: string)
    | LaunchFailed(reason: Option<string>)  // IOException: the process could not be started or fed
    | Interrupted                              // InterruptedException while waiting for the exit
    | TimedOut                                 // TimeoutException after the forced termination
  {
    /** The `error` flag of the process result: a non-zero exit. */
    predicate IsError()
      requires Exited?
    {
      exitCode != 0
    }
  }

  /** Creating the per-run directory and writing the script file. */
  datatype Setup = Ready | SetupFailed(reason: Option<string>)

  /** The interpreter, as seen from `runTests`: the `n`-th invocation of the
      run, with the given standard input, has the given outcome. */
  type Runner = (nat, string) -> ProcessOutcome

  datatype Config = Config(useRealRunner: bool, timeoutSeconds: int)

  /** `code-runner.use-real-runner` defaults to true, `timeout-seconds` to 10. */
  const DefaultConfig := Config(true, 10)

  datatype TestRunResult = TestRunResult(passed: bool, message: string)

  datatype RunResult = RunResult(
    allPassed: bool,
    passedCount: nat,
    totalCount: nat,
    message: string,
    testResults: seq<TestRunResult>)

  const EmptyCodeMessage := "Код не может быть пустым"
  const NoTestsMessage := "Нет тестов для задачи"
  const AllPassedMessage := "Все тесты пройдены."
  const StubAllPassedMessage := "Все тесты пройдены (режим-заглушка)."
  const StubMismatchMessage := "Ожидаемый вывод не совпал (режим-заглушка)"
  const InterruptedMessage := "Проверка прервана по таймауту."

  function PartialMessage(passed: nat, total: nat): string
  {
    "Пройдено " + NatToString(passed) + " из " + NatToString(total) + " тестов."
  }

  function LaunchErrorMessage(reason: Option<string>): string
  {
    "Ошибка запуска: " + Render(reason)
  }

  function TimeoutMessage(timeoutSeconds: int): string
  {
    "Превышено время выполнения (таймаут " + IntToString(timeoutSeconds) + " с)."
  }

  /** The standard input fed to the script: a null input is sent as "". */
  function InputText(tc: TestCase): string
  {
    if tc.input.Null? then "" else tc.input.value
  }

  /** The output compared with the expected one: normalised stdout, unless it
      is empty and stderr is not blank, in which case normalised stderr. */
  function ActualOutput(stdout: string, stderr: string): (actual: string)
    ensures IsNormal(actual)
    ensures NormalizeOutput(Some(stdout)) != "" ==> actual == NormalizeOutput(Some(stdout))
    ensures IsBlank(stderr) ==> actual == NormalizeOutput(Some(stdout))
    ensures NormalizeOutput(Some(stdout)) == "" && !IsBlank(stderr) ==> actual == NormalizeOutput(Some(stderr))
  {
    var out := NormalizeOutput(Some(stdout));
    if out == "" && !IsBlank(stderr) then NormalizeOutput(Some(stderr)) else out
  }

  /** What a failed run reports: trimmed stderr, or the exit code. */
  function ErrorDetail(exitCode: int, stderr: string): string
  {
    if !IsBlank(stderr) then Trim(stderr) else "код возврата " + IntToString(exitCode)
  }

  /** The verdict on one test case whose process ran to its exit (the body
      of the loop over the test cases in `runTests`). */
  function Judge(tc: TestCase, out: ProcessOutcome): (t: TestRunResult)
    requires out.Exited?
    ensures t.passed <==> out.exitCode == 0 && NormalizeOutput(tc.expectedOutput) == ActualOutput(out.stdout, out.stderr)
    ensures t.passed ==> t.message == "OK"
    ensures out.IsError() ==> t.message == "Ошибка выполнения: " + ErrorDetail(out.exitCode, out.stderr)
    ensures !out.IsError() && !t.passed ==>
      t.message == "Ожидалось: «" + NormalizeOutput(tc.expectedOutput) + "», получено: «" + ActualOutput(out.stdout, out.stderr) + "»"
  {
    var expected := NormalizeOutput(tc.expectedOutput);
    var actual := ActualOutput(out.stdout, out.stderr);
    if out.IsError() then
      TestRunResult(false, "Ошибка выполнения: " + ErrorDetail(out.exitCode, out.stderr))
    else if expected == actual then
      TestRunResult(true, "OK")
    else
      TestRunResult(false, "Ожидалось: «" + expected + "», получено: «" + actual + "»")
  }

  /** The number of passed verdicts. */
  function CountPassed(rs: seq<TestRunResult>): (n: nat)
    ensures n <= |rs|
  {
    if |rs| == 0 then 0 else CountPassed(rs[..|rs| - 1]) + (if rs[|rs| - 1].passed then 1 else 0)
  }

  lemma {:induction false} CountPassedAll(rs: seq<TestRunResult>)
    ensures CountPassed(rs) == |rs| <==> forall k :: 0 <= k < |rs| ==> rs[k].passed
  {
    if |rs| > 0 {
      CountPassedAll(rs[..|rs| - 1]);
      if CountPassed(rs) == |rs| {
        forall k | 0 <= k < |rs| ensures rs[k].passed {
          if k < |rs| - 1 {
            assert rs[..|rs| - 1][k] == rs[k];
          }
        }
      }
    }
  }

  lemma {:induction false} CountPassedNone(rs: seq<TestRunResult>)
    ensures CountPassed(rs) == 0 <==> forall k :: 0 <= k < |rs| ==> !rs[k].passed
  {
    if |rs| > 0 {
      CountPassedNone(rs[..|rs| - 1]);
      assert forall k :: 0 <= k < |rs| - 1 ==> rs[..|rs| - 1][k] == rs[k];
    }
  }

  lemma AllPassedMessageIsDistinct(passed: nat, total: nat)
    ensures AllPassedMessage != PartialMessage(passed, total)
    ensures StubAllPassedMessage != PartialMessage(passed, total)
  {
    assert AllPassedMessage[0] != PartialMessage(passed, total)[0];
    assert StubAllPassedMessage[0] != PartialMessage(passed, total)[0];
  }

  /** The summary that closes `runTests` and `runTestsStub`: all passed
      exactly when every test passed; the message says which. */
  function Summarize(rs: seq<TestRunResult>, stub: bool): (r: RunResult)
    ensures r.testResults == rs && r.totalCount == |rs|
    ensures r.passedCount == CountPassed(rs) <= r.totalCount
    ensures r.allPassed <==> forall k :: 0 <= k < |rs| ==> rs[k].passed
    ensures r.allPassed <==> r.passedCount == r.totalCount
    ensures !stub ==> (r.message == AllPassedMessage <==> r.allPassed)
    ensures stub ==> (r.message == StubAllPassedMessage <==> r.allPassed)
    ensures !r.allPassed ==> r.message == PartialMessage(r.passedCount, r.totalCount)
  {
    var passed := CountPassed(rs);
    CountPassedAll(rs);
    AllPassedMessageIsDistinct(passed, |rs|);
    var allPassed := passed == |rs|;
    var message :=
      if allPassed then (if stub then StubAllPassedMessage else AllPassedMessage)
      else PartialMessage(passed, |rs|);
    RunResult(allPassed, passed, |rs|, message, rs)
  }

  function OutcomeAt(cases: seq<TestCase>, runner: Runner, k: nat): ProcessOutcome
    requires k < |cases|
  {
    runner(k, InputText(cases[k]))
  }

  /** Every invocation for `cases[i..j]` ran to a normal exit. */
  predicate ExitsBetween(cases: seq<TestCase>, runner: Runner, i: nat, j: nat)
    requires j <= |cases|
  {
    forall k :: i <= k < j ==> OutcomeAt(cases, runner, k).Exited?
  }

  /** The verdict on case `k`, once its invocation exited normally. */
  function VerdictAt(cases: seq<TestCase>, runner: Runner, k: nat): TestRunResult
    requires k < |cases| && OutcomeAt(cases, runner, k).Exited?
  {
    Judge(cases[k], OutcomeAt(cases, runner, k))
  }

  /** The loop over `cases[i..]`: one interpreter invocation per case in
      stored order, until the first outcome other than a normal exit, which
      is an exception in the source and leaves the loop at once. The result
      is the index of that case, or `|cases|` when there is none. */
  function FirstAbnormal(cases: seq<TestCase>, runner: Runner, i: nat): (at: nat)
    requires i <= |cases|
    decreases |cases| - i
    ensures i <= at <= |cases|
    ensures ExitsBetween(cases, runner, i, at)
    ensures at < |cases| ==> !OutcomeAt(cases, runner, at).Exited?
  {
    if i == |cases| || !OutcomeAt(cases, runner, i).Exited? then i
    else
      var at := FirstAbnormal(cases, runner, i + 1);
      assert ExitsBetween(cases, runner, i, at) by {
        forall k | i <= k < at ensures OutcomeAt(cases, runner, k).Exited? {
          if k > i {
            assert ExitsBetween(cases, runner, i + 1, at);
          }
        }
      }
      at
  }

  /** The verdicts of a run in which every invocation exited normally. */
  function Verdicts(cases: seq<TestCase>, runner: Runner): (rs: seq<TestRunResult>)
    requires ExitsBetween(cases, runner, 0, |cases|)
    ensures |rs| == |cases|
    ensures forall k :: 0 <= k < |cases| ==> rs[k] == VerdictAt(cases, runner, k)
  {
    seq(|cases|, k requires 0 <= k < |cases| && ExitsBetween(cases, runner, 0, |cases|) => VerdictAt(cases, runner, k))
  }

  /** The run collapses into one message when an exception leaves the loop
      (the `catch` clauses of `runTests`). */
  function AbortedRun(cfg: Config, total: nat, outcome: ProcessOutcome): (r: RunResult)
    requires !outcome.Exited?
    ensures !r.allPassed && r.passedCount == 0 && r.totalCount == total && r.testResults == []
  {
    var message :=
      match outcome
      case LaunchFailed(reason) => LaunchErrorMessage(reason)
      case Interrupted => InterruptedMessage
      case TimedOut => TimeoutMessage(cfg.timeoutSeconds);
    RunResult(false, 0, total, message, [])
  }

  /** Degraded mode: a test passes when its normalised expected output occurs
      in the code text. */
  function StubVerdict(tc: TestCase, code: string): (t: TestRunResult)
    ensures t.passed <==> Contains(code, NormalizeOutput(tc.expectedOutput))
    ensures t.message == (if t.passed then "OK" else StubMismatchMessage)
  {
    var expected := NormalizeOutput(tc.expectedOutput);
    IndexOfFindsContains(code, expected);
    var ok := IndexOf(code, expected) >= 0;
    TestRunResult(ok, if ok then "OK" else StubMismatchMessage)
  }

  /** `runTestsStub`. */
  function RunTestsStub(cases: seq<TestCase>, code: string): (r: RunResult)
    ensures r.totalCount == |cases| == |r.testResults|
    ensures forall k :: 0 <= k < |cases| ==>
      (r.testResults[k].passed <==> Contains(code, NormalizeOutput(cases[k].expectedOutput)))
    ensures forall k :: 0 <= k < |cases| ==>
      r.testResults[k].message == (if r.testResults[k].passed then "OK" else StubMismatchMessage)
    ensures r.passedCount == CountPassed(r.testResults) <= r.totalCount
    ensures r.allPassed <==> forall k :: 0 <= k < |cases| ==> Contains(code, NormalizeOutput(cases[k].expectedOutput))
    ensures r.allPassed <==> r.passedCount == r.totalCount
    ensures r.allPassed <==> r.message == StubAllPassedMessage
    ensures !r.allPassed ==> r.message == PartialMessage(r.passedCount, r.totalCount)
  {
    var rs := seq(|cases|, k requires 0 <= k < |cases| => StubVerdict(cases[k], code));
    assert forall k :: 0 <= k < |cases| ==> rs[k] == StubVerdict(cases[k], code);
    Summarize(rs, true)
  }

  predicate IsBlankCode(code: Option<string>)
  {
    code.Null? || IsBlank(code.value)
  }

  /** `runTests`. */
  function RunTests(cfg: Config, cases: seq<TestCase>, code: Option<string>, setup: Setup, runner: Runner): (r: RunResult)
    ensures r.passedCount <= r.totalCount
    ensures r.allPassed ==> r.passedCount == r.totalCount == |cases| > 0
    ensures IsBlankCode(code) ==> r == RunResult(false, 0, 0, EmptyCodeMessage, [])
    ensures !IsBlankCode(code) && |cases| == 0 ==> r == RunResult(false, 0, 0, NoTestsMessage, [])
    ensures !IsBlankCode(code) && |cases| > 0 ==> r.totalCount == |cases|
    ensures !IsBlankCode(code) && |cases| > 0 && !cfg.useRealRunner ==> r == RunTestsStub(cases, code.value)
    ensures !IsBlankCode(code) && |cases| > 0 && cfg.useRealRunner && setup.SetupFailed? ==>
      r == RunResult(false, 0, |cases|, LaunchErrorMessage(setup.reason), [])
  {
    if IsBlankCode(code) then
      RunResult(false, 0, 0, EmptyCodeMessage, [])
    else if |cases| == 0 then
      RunResult(false, 0, 0, NoTestsMessage, [])
    else if !cfg.useRealRunner then
      RunTestsStub(cases, code.value)
    else if setup.SetupFailed? then
      RunResult(false, 0, |cases|, LaunchErrorMessage(setup.reason), [])
    else
      var at := FirstAbnormal(cases, runner, 0);
      if at < |cases| then AbortedRun(cfg, |cases|, OutcomeAt(cases, runner, at))
      else Summarize(Verdicts(cases, runner), false)
  }

  /** With the real interpreter, once the script is in place and every
      invocation exits normally: one verdict per case, in stored order, and
      the counts and message follow from those verdicts. */
  lemma CompletedRun(cfg: Config, cases: seq<TestCase>, code: Option<string>, runner: Runner)
    requires !IsBlankCode(code) && |cases| > 0 && cfg.useRealRunner
    requires ExitsBetween(cases, runner, 0, |cases|)
    ensures var r := RunTests(cfg, cases, code, Ready, runner);
      && |r.testResults| == r.totalCount == |cases|
      && (forall k :: 0 <= k < |cases| ==> r.testResults[k] == Judge(cases[k], OutcomeAt(cases, runner, k)))
      && r.passedCount == CountPassed(r.testResults)
      && (r.allPassed <==> r.passedCount == |cases|)
      && (r.allPassed <==> r.message == AllPassedMessage)
      && (!r.allPassed ==> r.message == PartialMessage(r.passedCount, |cases|))
  {
  }

  /** A non-zero exit fails its test whatever the output, and the message
      shows stderr, or the exit code when stderr is blank. */
  lemma NonZeroExitFails(tc: TestCase, exitCode: int, stdout: string, stderr: string)
    requires exitCode != 0
    ensures !Judge(tc, Exited(exitCode, stdout, stderr)).passed
    ensures IsBlank(stderr) ==>
      Judge(tc, Exited(exitCode, stdout, stderr)).message == "Ошибка выполнения: код возврата " + IntToString(exitCode)
    ensures !IsBlank(stderr) ==>
      Judge(tc, Exited(exitCode, stdout, stderr)).message == "Ошибка выполнения: " + Trim(stderr)
  {
    var out := Exited(exitCode, stdout, stderr);
    assert out.IsError();
    var t := Judge(tc, out);
    assert t.message == "Ошибка выполнения: " + ErrorDetail(exitCode, stderr);
    if IsBlank(stderr) {
      var code := IntToString(exitCode);
      assert ErrorDetail(exitCode, stderr) == "код возврата " + code;
      assert "Ошибка выполнения: " + ("код возврата " + code) == "Ошибка выполнения: код возврата " + code;
    } else {
      assert ErrorDetail(exitCode, stderr) == Trim(stderr);
    }
  }

  /** If the first abnormal outcome is at case `k`, the whole run collapses:
      nothing passes and no per-test verdict is reported. */
  lemma AbortedRunCollapses(cfg: Config, cases: seq<TestCase>, code: Option<string>, runner: Runner, k: nat)
    requires !IsBlankCode(code) && cfg.useRealRunner
    requires k < |cases| && !OutcomeAt(cases, runner, k).Exited?
    requires forall j :: 0 <= j < k ==> OutcomeAt(cases, runner, j).Exited?
    ensures var r := RunTests(cfg, cases, code, Ready, runner);
      && !r.allPassed && r.passedCount == 0 && r.totalCount == |cases| && r.testResults == []
      && r.message == match OutcomeAt(cases, runner, k)
                      case LaunchFailed(reason) => LaunchErrorMessage(reason)
                      case Interrupted => InterruptedMessage
                      case TimedOut => TimeoutMessage(cfg.timeoutSeconds)
  {
    var at := FirstAbnormal(cases, runner, 0);
    assert at == k;
  }

  /** No process is started for blank code, for a task without tests, in stub
      mode, or when the script cannot be written: the result does not depend
      on the interpreter. */
  lemma NoRunnerCallOnEarlyExit(cfg: Config, cases: seq<TestCase>, code: Option<string>, setup: Setup, r1: Runner, r2: Runner)
    requires IsBlankCode(code) || |cases| == 0 || !cfg.useRealRunner || setup.SetupFailed?
    ensures RunTests(cfg, cases, code, setup, r1) == RunTests(cfg, cases, code, setup, r2)
  {
  }

  /** A program that writes the expected output to stdout and exits with 0
      passes, unless the expected output is empty after normalisation and the
      program also wrote something non-blank to stderr. */
  lemma ExactOutputPasses(tc: TestCase, stdout: string, stderr: string)
    requires NormalizeOutput(Some(stdout)) == NormalizeOutput(tc.expectedOutput)
    requires NormalizeOutput(tc.expectedOutput) != "" || IsBlank(stderr)
    ensures Judge(tc, Exited(0, stdout, stderr)).passed
  {
  }

  /** The exception to the previous lemma: expected output "", nothing on
      stdout and a diagnostic on stderr fails. */
  lemma EmptyExpectedWithStderrFails()
    ensures !Judge(TestCase(Some(""), Some("")), Exited(0, "", "warning")).passed
  {
    assert NormalizeOutput(Some("warning")) != "" by {
      assert !IsTrimmable("warning"[0]);
    }
  }
}
