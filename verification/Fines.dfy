/** The flat daily fine, in cents. Instants are in microseconds, as the clock gives them. */
module Fines {
  import opened Domain
  import opened Machine
  import opened Fairness

  const DAILY_RATE: nat := 50
  const MAX_FINE: nat := 5_000

  function CalculateFine(due: Time, returned: Time): nat {
    if returned <= due then 0
    else
      var overdue := returned - due;
      var days := overdue / DAY;
      var seconds := overdue % DAY / SECOND; // timedelta.seconds: whole seconds beyond whole days
      var charged := if seconds > 0 then days + 1 else days;
      var fine := charged * DAILY_RATE;
      if fine <= MAX_FINE then fine else MAX_FINE
  }

  function CeilDiv(a: int, b: int): int
    requires b > 0
  {
    (a + b - 1) / b
  }

  /** At most fifty dollars. */
  function Capped(cents: int): int {
    if cents <= 0 then 0 else if cents <= 5_000 then cents else 5_000
  }

  lemma DayIsSeconds(x: int)
    requires 0 <= x
    ensures x / DAY == x / SECOND / 86_400
    ensures x % DAY / SECOND == x / SECOND % 86_400
  {
    var s, us := x / SECOND, x % SECOND;
    assert x == (s / 86_400) * DAY + (s % 86_400) * SECOND + us;
    assert 0 <= (s % 86_400) * SECOND + us < DAY;
    DivideBack(x, s / 86_400, (s % 86_400) * SECOND + us);
  }

  lemma DivideBack(x: int, q: int, r: int)
    requires x == q * DAY + r && 0 <= r < DAY
    ensures x / DAY == q && x % DAY == r
  {
  }

  /** The fine charges every started day of the whole seconds overdue. */
  lemma FineIsCeilingOfSeconds(due: Time, returned: Time)
    ensures CalculateFine(due, returned) == Capped(50 * CeilDiv((returned - due) / 1_000_000, 86_400))
  {
    if returned > due {
      DayIsSeconds(returned - due);
    }
  }

  /** A later return never costs less, and a later due date never costs more. */
  lemma FineIsMonotone(due: Time, due': Time, returned: Time, returned': Time)
    requires due' <= due && returned <= returned'
    ensures CalculateFine(due, returned) <= CalculateFine(due', returned')
  {
    FineIsCeilingOfSeconds(due, returned);
    FineIsCeilingOfSeconds(due', returned');
    assert (returned - due) / SECOND <= (returned' - due') / SECOND;
  }

  /** "Count any partial day as a full day": the fine by started days, down to the microsecond. */
  function FineByStartedDays(due: Time, returned: Time): int {
    Capped(50 * CeilDiv(returned - due, DAY))
  }

  /** The code counts whole seconds only, so it keeps that promise exactly unless the return falls within the first
      second of a fresh overdue day that the cap does not hide. */
  lemma PartialDaysCharged(due: Time, returned: Time)
    ensures CalculateFine(due, returned) == FineByStartedDays(due, returned) <==>
      !(returned > due && 0 < (returned - due) % DAY < SECOND && (returned - due) / DAY < 100)
  {
    var x := returned - due;
    if x > 0 {
      var q, r := x / DAY, x % DAY;
      assert x == q * DAY + r;
      if r == 0 {
        DivideBack(x + DAY - 1, q, DAY - 1);
      } else {
        DivideBack(x + DAY - 1, q + 1, r - 1);
      }
    } else {
      assert CeilDiv(x, DAY) <= 0;
    }
  }

  /** Half a second late is free. */
  lemma HalfASecondLate()
    ensures CalculateFine(0, 500_000) == 0 && FineByStartedDays(0, 500_000) == 50
  {
  }

  /** Along any run, whatever renewals are granted, the fine for a given return time does not go up. */
  lemma RenewalsNeverRaiseTheFine(run: seq<World>, ops: seq<Op>, j: nat, k: nat, loan: Id, returned: Time)
    requires IsRun(run, ops) && j <= k < |run| && loan in run[j].t.loans
    ensures loan in run[k].t.loans
    ensures CalculateFine(run[k].t.loans[loan].dueDate, returned) <=
      CalculateFine(run[j].t.loans[loan].dueDate, returned)
  {
    RunEvolves(run, ops, j, k);
    FineIsMonotone(run[k].t.loans[loan].dueDate, run[j].t.loans[loan].dueDate, returned, returned);
  }
}
