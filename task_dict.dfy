/**
 * `task_as_dict` of `utils.py`: a projection of a task row into a dictionary
 * of eight keys, with the restart delay rendered as text such as `"120s"`.
 */
module TaskDict {
  import opened Wrappers
  import opened Models

  /** The values the dictionary holds. */
  datatype Field =
    | FInt(i: int)
    | FStr(s: string)
    | FStatus(status: Status)
    | FTime(time: Option<Time>)

  predicate IsDigit(c: char) {
    '0' <= c <= '9'
  }

  function DigitChar(d: nat): (c: char)
    requires d < 10
    ensures IsDigit(c) && (c as int) - ('0' as int) == d
  {
    (('0' as int) + d) as char
  }

  /** The decimal digits of `n`, most significant first, without leading zeros. */
  function NatToDecimal(n: nat): (s: string)
    ensures |s| > 0 && forall i :: 0 <= i < |s| ==> IsDigit(s[i])
    ensures |s| > 1 ==> s[0] != '0'
    decreases n
  {
    if n < 10 then [DigitChar(n)] else NatToDecimal(n / 10) + [DigitChar(n % 10)]
  }

  /** Python's `str(n)` / `f"{n}"` for an integer. */
  function IntToDecimal(n: int): (s: string)
    ensures |s| > 0
    ensures n < 0 <==> s[0] == '-'
    ensures n < 0 ==> s[1..] == NatToDecimal(-n)
    ensures n >= 0 ==> s == NatToDecimal(n)
  {
    if n < 0 then "-" + NatToDecimal(-n) else NatToDecimal(n)
  }

  /** The value of a string of decimal digits. */
  function DecimalToNat(s: string): nat
    requires forall i :: 0 <= i < |s| ==> IsDigit(s[i])
    decreases |s|
  {
    if |s| == 0 then 0
    else
      assert IsDigit(s[|s| - 1]);
      DecimalToNat(s[..|s| - 1]) * 10 + ((s[|s| - 1] as int) - ('0' as int))
  }

  /** Python's `int(s)` for an optional minus sign followed by digits. */
  function ParseInt(s: string): Option<int> {
    if |s| > 1 && s[0] == '-' && forall i :: 1 <= i < |s| ==> IsDigit(s[i]) then
      var magnitude: int := DecimalToNat(s[1..]);
      Some(-magnitude)
    else if |s| > 0 && forall i :: 0 <= i < |s| ==> IsDigit(s[i]) then
      Some(DecimalToNat(s))
    else None
  }

  /** Reading the digits back gives the number. */
  lemma {:induction false} NatDecimalRoundTrip(n: nat)
    ensures DecimalToNat(NatToDecimal(n)) == n
    decreases n
  {
    if n >= 10 {
      NatDecimalRoundTrip(n / 10);
      var s := NatToDecimal(n);
      assert s[..|s| - 1] == NatToDecimal(n / 10);
    }
  }

  /** `int(str(n)) == n`. */
  lemma IntDecimalRoundTrip(n: int)
    ensures ParseInt(IntToDecimal(n)) == Some(n)
  {
    var s := IntToDecimal(n);
    if n < 0 {
      var digits := NatToDecimal(-n);
      NatDecimalRoundTrip(-n);
      assert s[1..] == digits;
      assert forall i :: 1 <= i < |s| ==> IsDigit(s[i]) by {
        forall i | 1 <= i < |s| ensures IsDigit(s[i]) {
          assert s[i] == digits[i - 1];
        }
      }
    } else {
      NatDecimalRoundTrip(n);
      assert IsDigit(s[0]);
    }
  }

  /** The rendering `f"{restart_delay}s"`. */
  function DelayText(delay: int): (s: string)
    ensures |s| >= 2 && s[|s| - 1] == 's'
    ensures s[..|s| - 1] == IntToDecimal(delay)
  {
    IntToDecimal(delay) + "s"
  }

  /** Reads a rendered delay back: the text before the trailing `s`, as an integer. */
  function ParseDelayText(text: string): Option<int> {
    if |text| > 0 && text[|text| - 1] == 's' then ParseInt(text[..|text| - 1]) else None
  }

  /** The delay text is a decimal integer followed by `s`, and reads back as the delay. */
  lemma DelayTextRoundTrip(delay: int)
    ensures DelayText(delay)[|DelayText(delay)| - 1] == 's'
    ensures ParseDelayText(DelayText(delay)) == Some(delay)
  {
    IntDecimalRoundTrip(delay);
    assert DelayText(delay)[..|DelayText(delay)| - 1] == IntToDecimal(delay);
  }

  /** The eight keys of the dictionary. */
  const KEYS: set<string> :=
    {"id", "func_name", "status", "not_before", "created", "restart_attempts", "restart_delay", "max_restarts"}

  /**
   * `task_as_dict`: exactly the eight keys; `queue`, `completed`, `failed`
   * and the raw payloads are not exposed.
   */
  function TaskAsDict(t: TaskRow): (d: map<string, Field>)
    ensures d.Keys == KEYS
    ensures "queue" !in d && "completed" !in d && "failed" !in d
    ensures "raw_params" !in d && "raw_returned" !in d
  {
    map[
      "id" := FInt(t.id),
      "func_name" := FStr(t.funcName),
      "status" := FStatus(t.status),
      "not_before" := FTime(t.notBefore),
      "created" := FTime(Some(t.created)),
      "restart_attempts" := FInt(t.restartAttempts),
      "restart_delay" := FStr(DelayText(t.restartDelay)),
      "max_restarts" := FInt(t.maxRestarts)
    ]
  }

  /**
   * Every value of `task_as_dict` but the delay is copied from the row; the
   * delay is text that reads back as the row's delay.
   */
  lemma TaskAsDictValues(t: TaskRow)
    ensures TaskAsDict(t)["id"] == FInt(t.id) && TaskAsDict(t)["func_name"] == FStr(t.funcName)
    ensures TaskAsDict(t)["status"] == FStatus(t.status) && TaskAsDict(t)["not_before"] == FTime(t.notBefore)
    ensures TaskAsDict(t)["created"] == FTime(Some(t.created))
    ensures TaskAsDict(t)["restart_attempts"] == FInt(t.restartAttempts)
    ensures TaskAsDict(t)["max_restarts"] == FInt(t.maxRestarts)
    ensures TaskAsDict(t)["restart_delay"].FStr?
    ensures ParseDelayText(TaskAsDict(t)["restart_delay"].s) == Some(t.restartDelay)
  {
    DelayTextRoundTrip(t.restartDelay);
  }
}
