/** Retention policy of the task index: which tasks are test noise, how long a row and its output live. */
module Retention {
  import opened Wrappers

  type Labels = map<string, string>

  datatype Status =
    | Created | Dispatching | Queued | Running | WaitingForApproval
    | Succeeded | Failed | Cancelled | TimedOut | DispatchFailed

  datatype RetentionClass = TestNoise | Success | Failure | Withdrawn | Default

  const DAY := 86_400_000
  const HOUR := 3_600_000
  const GRACE := 24 * HOUR
  const OUTPUT_DAYS := 7

  predicate IsTerminal(s: Status) {
    s in {Succeeded, Failed, Cancelled, TimedOut, DispatchFailed}
  }

  lemma ActiveOrTerminal(s: Status)
    ensures IsTerminal(s) <==> s in {Succeeded, Failed, Cancelled, TimedOut, DispatchFailed}
    ensures IsTerminal(s) <==> s !in {Created, Dispatching, Queued, Running, WaitingForApproval}
  {
  }

  /** White space as `String.prototype.trim` has it. */
  predicate IsSpace(c: char) {
    || c in {'\t', '\U{0B}', '\U{0C}', ' ', '\U{A0}', '\U{FEFF}', '\n', '\r', '\U{2028}', '\U{2029}'}
    || c in {'\U{1680}', '\U{202F}', '\U{205F}', '\U{3000}'} || '\U{2000}' <= c <= '\U{200A}'
  }

  function TrimStart(s: string): (r: string)
    ensures r == "" <==> forall c :: c in s ==> IsSpace(c)
    ensures r != "" ==> !IsSpace(r[0])
  {
    if s == "" then ""
    else if IsSpace(s[0]) then
      assert s == [s[0]] + s[1..];
      TrimStart(s[1..])
    else s
  }

  function TrimEnd(s: string): (r: string)
    ensures r <= s
    ensures r == "" <==> forall c :: c in s ==> IsSpace(c)
  {
    if s == "" then ""
    else if IsSpace(s[|s| - 1]) then
      assert s == s[..|s| - 1] + [s[|s| - 1]];
      TrimEnd(s[..|s| - 1])
    else s
  }

  function Trim(s: string): string {
    TrimEnd(TrimStart(s))
  }

  predicate Labelled(labels: Labels, name: string, value: string) {
    name in labels && labels[name] == value
  }

  predicate IsTestTask(labels: Labels, environment: Option<string>) {
    || environment == Some("test")
    || Labelled(labels, "environment", "test")
    || ("suite" in labels && Trim(labels["suite"]) != "")
    || Labelled(labels, "purpose", "regression")
    || Labelled(labels, "purpose", "acceptance-test")
  }

  function EnvironmentFromLabels(labels: Labels): Option<string> {
    var t := if "environment" in labels then Trim(labels["environment"]) else "";
    if t == "" then None else Some(if |t| <= 64 then t else t[..64])
  }

  /** A blank suite does not make a test task, and padding around the environment does not hide one. */
  lemma TestTaskAtCreation(labels: Labels)
    ensures
      IsTestTask(labels, EnvironmentFromLabels(labels)) <==>
      || ("environment" in labels && Trim(labels["environment"]) == "test")
      || ("suite" in labels && exists c :: c in labels["suite"] && !IsSpace(c))
      || Labelled(labels, "purpose", "regression")
      || Labelled(labels, "purpose", "acceptance-test")
  {
    assert Trim("test") == "test";
    if "environment" in labels && |Trim(labels["environment"])| > 64 {
      var t := Trim(labels["environment"]);
      assert |t[..64]| == 64 && |"test"| == 4;
    }
    if "suite" in labels {
      TrimBlank(labels["suite"]);
    }
  }

  lemma TrimBlank(s: string)
    ensures Trim(s) == "" <==> forall c :: c in s ==> IsSpace(c)
  {
    var t := TrimStart(s);
    if t != "" {
      assert t[0] in t;
    }
  }

  function ClassFor(status: Status, labels: Labels, environment: Option<string>): RetentionClass {
    if IsTestTask(labels, environment) then TestNoise
    else if status == Succeeded then Success
    else if status == Cancelled then Withdrawn
    else if status in {Failed, DispatchFailed, TimedOut} then Failure
    else Default
  }

  function DaysFor(c: RetentionClass, status: Status): int {
    if c == TestNoise then 3 else if status == Succeeded then 14 else 30
  }

  function ExpiresAt(terminalAt: int, c: RetentionClass, status: Status): int {
    terminalAt + DaysFor(c, status) * DAY
  }

  function OutputSpan(seconds: Option<int>): int {
    if seconds.Some? && seconds.value > 0 then seconds.value * 1000 else OUTPUT_DAYS * DAY
  }

  function KeyTtl(labels: Labels, environment: Option<string>): int {
    if IsTestTask(labels, environment) then 7 * DAY else 30 * DAY
  }
}
