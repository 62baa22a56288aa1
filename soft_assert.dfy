/** Soft assertions: checks that record a failure and carry on, and one final
    verdict that fails once, stating how many failures were recorded. */
module SoftAssertion {
  import opened Text

  /** The log entry of one failed check. */
  function Failure(message: string): string {
    "[FAILURE] " + message
  }

  /** One call `check(condition, message)`. */
  datatype Assertion = Assertion(condition: bool, message: string)

  /** The conditions of a run of calls, in call order. */
  function Conditions(calls: seq<Assertion>): seq<bool> {
    seq(|calls|, i requires 0 <= i < |calls| => calls[i].condition)
  }

  /** The log entries that a run of `check` calls appends, in call order. */
  function Recorded(calls: seq<Assertion>): (r: seq<string>)
    ensures |r| <= |calls|
  {
    if calls == [] then []
    else
      var last := calls[|calls| - 1];
      Recorded(calls[..|calls| - 1]) + (if last.condition then [] else [Failure(last.message)])
  }

  lemma {:induction false} RecordedAppend(a: seq<Assertion>, b: seq<Assertion>)
    ensures Recorded(a + b) == Recorded(a) + Recorded(b)
    decreases |b|
  {
    if b != [] {
      var b', last := b[..|b| - 1], b[|b| - 1];
      var tail := if last.condition then [] else [Failure(last.message)];
      assert (a + b)[..|a + b| - 1] == a + b';
      assert (a + b)[|a + b| - 1] == last;
      assert Recorded(a + b) == Recorded(a + b') + tail;
      RecordedAppend(a, b');
    } else {
      assert a + b == a;
    }
  }

  /** The record of one call: its entry when its condition is false. */
  function RecordOf(c: Assertion): seq<string> {
    if c.condition then [] else [Failure(c.message)]
  }

  /** Four calls record, in order, what each records alone. */
  lemma RecordedFour(a: Assertion, b: Assertion, c: Assertion, d: Assertion)
    ensures Recorded([a, b, c, d]) == RecordOf(a) + RecordOf(b) + RecordOf(c) + RecordOf(d)
  {
    assert [a, b, c, d][..3] == [a, b, c];
    assert Recorded([a, b, c, d]) == Recorded([a, b, c]) + RecordOf(d);
    assert [a, b, c][..2] == [a, b];
    assert Recorded([a, b, c]) == Recorded([a, b]) + RecordOf(c);
    assert [a, b][..1] == [a];
    assert Recorded([a, b]) == Recorded([a]) + RecordOf(b);
    assert [a][..0] == [];
    assert Recorded([a]) == [] + RecordOf(a);
  }

  /** A run of checks records exactly one entry per false condition, and
      nothing at all when every condition holds. */
  lemma {:induction false} RecordedCount(calls: seq<Assertion>)
    ensures |Recorded(calls)| == Count(Conditions(calls), false)
    ensures Recorded(calls) == [] <==> forall i :: 0 <= i < |calls| ==> calls[i].condition
  {
    if calls != [] {
      var init, last := calls[..|calls| - 1], calls[|calls| - 1];
      RecordedCount(init);
      var cs := Conditions(calls);
      assert cs[..|cs| - 1] == Conditions(init);
      assert Count(cs, false) == Count(Conditions(init), false) + (if last.condition then 0 else 1);
      if Recorded(calls) == [] {
        forall i | 0 <= i < |calls| ensures calls[i].condition {
          if i < |init| {
            assert calls[i] == init[i];
          }
        }
      }
    }
  }

  /** What `assert_all` ends in: a normal return, or an `AssertionError`
      with its message, together with the full report it attaches first. */
  datatype Outcome = Passed | Raised(message: string, report: string)

  /** The message of the `AssertionError` raised for `n` recorded failures. */
  function Summary(n: nat): string {
    "Soft Assert failed with " + Decimal(n) + " errors. Check Allure report or logs for details."
  }

  /** The number written into the summary is the failure count. */
  lemma SummaryStatesCount(n: nat)
    ensures var m := Summary(n); |m| > 73 && ParseDecimal(m[24..|m| - 49]) == n
  {
    var m := Summary(n);
    assert m[24..|m| - 49] == Decimal(n);
    DecimalRoundTrip(n);
  }

  /** The joined report gives back the recorded entries, in order, when no
      entry spans several lines. */
  lemma ReportLists(errors: seq<string>)
    requires errors != []
    requires forall k :: 0 <= k < |errors| ==> '\n' !in errors[k]
    ensures Split(Join(errors, "\n"), '\n') == errors
  {
    SplitJoin(errors, '\n');
  }

  class SoftAssert {
    /** The failure log: append-only while a test runs. */
    var errors: seq<string>

    constructor ()
      ensures errors == []
    {
      errors := [];
    }

    /** `check`: a false condition appends its formatted entry at the end;
        a true one leaves the log as it was. */
    method Check(condition: bool, message: string)
      modifies this
      ensures condition ==> errors == old(errors)
      ensures !condition ==> errors == old(errors) + [Failure(message)]
      ensures errors == old(errors) + Recorded([Assertion(condition, message)])
    {
      if !condition {
        errors := errors + [Failure(message)];
      }
    }

    /** `assert_all`: passes when nothing was recorded; otherwise raises one
        error naming the count, after building the newline-joined report.
        The log itself is left as it is. */
    method AssertAll() returns (outcome: Outcome)
      ensures outcome == Passed <==> errors == []
      ensures outcome.Raised? ==> outcome.message == Summary(|errors|)
      ensures outcome.Raised? ==> outcome.report == Join(errors, "\n")
    {
      if errors != [] {
        var errorCount := |errors|;
        var report := Join(errors, "\n");
        outcome := Raised(Summary(errorCount), report);
      } else {
        outcome := Passed;
      }
    }
  }
}
