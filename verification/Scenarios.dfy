/**
 * Worked test runs of the first task the application seeds at
 * start-up ("Первая программа": four test cases with input "" and expected
 * output "Привет, мир!"), and the second one ("Вывод числа", expected
 * output "42"), with interpreters that behave in the ways a learner's
 * script typically does.
 */
module Scenarios {
  import opened JavaText
  import opened OutputNormalizer
  import opened CodeExecution

  const Hello := "Привет, мир!"

  /** The four seeded test cases of a task with the given expected output. */
  function SeedCases(expected: string): (cs: seq<TestCase>)
    ensures |cs| == 4
    ensures forall k :: 0 <= k < 4 ==> cs[k] == TestCase(Some(""), Some(expected))
  {
    seq(4, _ => TestCase(Some(""), Some(expected)))
  }

  const HelloScript := Some("Сообщить(\"Привет, мир!\");")

  lemma HelloIsNormal()
    ensures NormalizeOutput(Some(Hello)) == Hello
  {
    assert IsNormal(Hello) by {
      assert !IsTrimmable(Hello[0]) && !IsTrimmable(Hello[|Hello| - 1]);
    }
    NormalizeFixedPoint(Hello);
  }

  /** One seeded test against a script that prints the greeting followed by
      a Windows line ending. */
  lemma HelloVerdict()
    ensures Judge(TestCase(Some(""), Some(Hello)), Exited(0, Hello + "\r\n", "")) == TestRunResult(true, "OK")
  {
    HelloIsNormal();
    TrimStripsPadding("", Hello, "\r\n");
    assert "" + Hello + "\r\n" == Hello + "\r\n";
    NormalizeIgnoresOuterWhitespace(Hello + "\r\n");
  }

  /** The seeded greeting, as the interpreter prints it with a Windows line
      ending, still matches: every one of the four tests passes. */
  lemma HelloWorldPasses()
    ensures RunTests(DefaultConfig, SeedCases(Hello), HelloScript, Ready, (_, _) => Exited(0, Hello + "\r\n", ""))
         == RunResult(true, 4, 4, "Все тесты пройдены.", seq(4, _ => TestRunResult(true, "OK")))
  {
    var runner: Runner := (_, _) => Exited(0, Hello + "\r\n", "");
    var cases := SeedCases(Hello);
    assert !IsJavaWhitespace(HelloScript.value[0]);
    assert ExitsBetween(cases, runner, 0, |cases|);
    HelloVerdict();
    CompletedRun(DefaultConfig, cases, HelloScript, runner);
    var r := RunTests(DefaultConfig, cases, HelloScript, Ready, runner);
    assert forall k :: 0 <= k < 4 ==> r.testResults[k] == TestRunResult(true, "OK");
    assert r.testResults == seq(4, _ => TestRunResult(true, "OK"));
    CountPassedAll(r.testResults);
  }

  /** What a failed seeded test reports when the greeting comes out in
      lower case. */
  const LowerCaseMismatch := "Ожидалось: «" + Hello + "», получено: «" + "привет, мир!" + "»"

  /** One seeded test against a script that prints the greeting in lower
      case. */
  lemma LowerCaseVerdict()
    ensures Judge(TestCase(Some(""), Some(Hello)), Exited(0, "привет, мир!", "")) == TestRunResult(false, LowerCaseMismatch)
  {
    var lower := "привет, мир!";
    var tc, out := TestCase(Some(""), Some(Hello)), Exited(0, lower, "");
    HelloIsNormal();
    LowerIsNormal();
    assert ActualOutput(lower, "") == lower;
    assert Hello != lower by {
      assert Hello[0] != lower[0];
    }
    assert !out.IsError();
    var t := Judge(tc, out);
    assert !t.passed;
    assert t.message == "Ожидалось: «" + Hello + "», получено: «" + lower + "»";
  }

  lemma LowerIsNormal()
    ensures NormalizeOutput(Some("привет, мир!")) == "привет, мир!"
  {
    var lower := "привет, мир!";
    assert IsNormal(lower) by {
      assert !IsTrimmable(lower[0]) && !IsTrimmable(lower[|lower| - 1]);
    }
    NormalizeFixedPoint(lower);
  }

  lemma PartialMessageOfNone()
    ensures PartialMessage(0, 4) == "Пройдено 0 из 4 тестов."
  {
    assert NatToString(0) == "0" && NatToString(4) == "4";
  }

  const LowerCaseRunner: Runner := (_, _) => Exited(0, "привет, мир!", "")

  /** Every one of the four seeded tests gets the lower-case mismatch
      verdict. */
  lemma LowerCaseVerdicts()
    ensures var r := RunTests(DefaultConfig, SeedCases(Hello), HelloScript, Ready, LowerCaseRunner);
      && |r.testResults| == r.totalCount == 4
      && (forall k :: 0 <= k < 4 ==> r.testResults[k] == TestRunResult(false, LowerCaseMismatch))
      && r.passedCount == CountPassed(r.testResults)
      && (!r.allPassed ==> r.message == PartialMessage(r.passedCount, 4))
      && (r.allPassed <==> r.passedCount == 4)
  {
    var cases := SeedCases(Hello);
    assert !IsJavaWhitespace(HelloScript.value[0]);
    assert ExitsBetween(cases, LowerCaseRunner, 0, |cases|);
    LowerCaseVerdict();
    CompletedRun(DefaultConfig, cases, HelloScript, LowerCaseRunner);
  }

  /** Printing the greeting in lower case fails every test with the
      expected and actual texts side by side, and the summary counts none of
      four. */
  lemma WrongCaseFailsEveryTest()
    ensures var r := RunTests(DefaultConfig, SeedCases(Hello), HelloScript, Ready, (_, _) => Exited(0, "привет, мир!", ""));
      && !r.allPassed && r.passedCount == 0 && r.totalCount == 4
      && r.message == "Пройдено 0 из 4 тестов."
      && |r.testResults| == 4
      && forall k :: 0 <= k < 4 ==> r.testResults[k] == TestRunResult(false, LowerCaseMismatch)
  {
    var r := RunTests(DefaultConfig, SeedCases(Hello), HelloScript, Ready, LowerCaseRunner);
    LowerCaseVerdicts();
    CountPassedNone(r.testResults);
    PartialMessageOfNone();
  }

  /** A script that never ends: the first invocation times out after the
      default ten seconds and the run reports nothing per test. */
  lemma EndlessScriptTimesOut()
    ensures RunTests(DefaultConfig, SeedCases(Hello), HelloScript, Ready, (_, _) => TimedOut)
         == RunResult(false, 0, 4, "Превышено время выполнения (таймаут 10 с).", [])
  {
    var runner: Runner := (_, _) => TimedOut;
    assert !IsJavaWhitespace(HelloScript.value[0]);
    AbortedRunCollapses(DefaultConfig, SeedCases(Hello), HelloScript, runner, 0);
    assert NatToString(10) == "10" by {
      assert NatToString(1) == "1";
    }
  }

  /** Without the interpreter, the "42" task passes as soon as the code text
      mentions 42, whatever it would print. */
  lemma StubModeFindsAnswerInCode()
    ensures RunTests(Config(false, 10), SeedCases("42"), Some("Сообщить(42);"), Ready, (_, _) => TimedOut)
         == RunResult(true, 4, 4, "Все тесты пройдены (режим-заглушка).", seq(4, _ => TestRunResult(true, "OK")))
  {
    var code := "Сообщить(42);";
    assert IsNormal("42");
    NormalizeFixedPoint("42");
    assert OccursAt(code, "42", 9);
    var r := RunTestsStub(SeedCases("42"), code);
    assert r.testResults == seq(4, _ => TestRunResult(true, "OK"));
  }
}
