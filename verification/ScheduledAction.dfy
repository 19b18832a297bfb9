/** The set/check/retry machine of the scheduler: one `execute` per activation, with all
    state in the execution's database row. */
module ScheduledAction {

  const SUCCESS: int := 1
  const DEVICE_UNREACHABLE: int := 2
  const NO_SENSOR: int := 3
  const SERVER_UNREACHABLE: int := 6
  const FAILURE: int := 7
  const CANCELLED: int := 8
  const WITHOUT_CONFIRMATION: int := 9
  const VALVE_CLOSED: int := 10

  const IPC_SERVER_UNREACHABLE: int := -1
  const IPC_DISCONNECTED: int := 0
  const IPC_CONNECTED: int := 1

  /** What an action class and its schedule fix for all activations. */
  datatype Params = Params(tryLimit: int, retryTime: int, checkTime: int,
                           channelGroup: bool, checkBeforeStart: bool, retryWhenFail: bool)
  {
    ghost predicate Sane() { tryLimit >= 1 && 0 <= checkTime <= retryTime }

    function MaxTime(): int { tryLimit * retryTime }
  }

  /** What the hooks answer during one activation. */
  datatype Answers = Answers(allowed: bool, successBefore: bool, actionResult: bool,
                             success: bool, failCode: int, connected: int)

  /** The row of one scheduled execution and what was done for it. A fetched row is activated
      again only after `set_retry`. */
  datatype Row = Row(retryCount: nat, fetchable: bool, results: seq<int>, delays: seq<int>, actions: nat, executions: nat)

  const NEW_ROW := Row(0, true, [], [], 0, 0)

  ghost function WithResult(r: Row, code: int): Row {
    r.(fetchable := false, results := r.results + [code])
  }

  ghost function WithRetry(r: Row, delay: int): Row {
    r.(fetchable := true, retryCount := r.retryCount + 1, delays := r.delays + [delay])
  }

  /** Result code of a last check that failed without a code of its own. */
  ghost function LastCheck(r: Row, connected: int): Row {
    if connected == IPC_CONNECTED then WithResult(r, FAILURE)
    else if connected == IPC_DISCONNECTED then WithResult(r, DEVICE_UNREACHABLE)
    else if connected == IPC_SERVER_UNREACHABLE then WithResult(r, SERVER_UNREACHABLE)
    else r
  }

  /** One activation. */
  ghost function Activate(p: Params, row: Row, a: Answers): Row {
    var r := row.(fetchable := false, executions := row.executions + 1);
    if !a.allowed then WithResult(r, CANCELLED)
    else if !p.channelGroup && p.checkBeforeStart && r.retryCount == 0 && a.successBefore then WithResult(r, SUCCESS)
    else if r.retryCount % 2 == 0 then
      var s := r.(actions := r.actions + 1);
      if p.channelGroup then
        WithResult(s, if a.actionResult then WITHOUT_CONFIRMATION
                      else if a.connected == IPC_SERVER_UNREACHABLE then SERVER_UNREACHABLE else FAILURE)
      else if r.retryCount == 0 && p.tryLimit <= 1 then
        WithResult(s, if a.actionResult then WITHOUT_CONFIRMATION else FAILURE)
      else WithRetry(s, p.checkTime)
    else if a.success then WithResult(r, SUCCESS)
    else if p.retryWhenFail && r.retryCount + 1 < p.tryLimit * 2 then WithRetry(r, p.retryTime - p.checkTime)
    else if a.failCode > 0 then WithResult(r, a.failCode)
    else LastCheck(r, a.connected)
  }

  /** The worker's view of the row, updated in place by each activation. */
  class Worker {
    const p: Params
    var retryCount: nat
    var fetchable: bool
    var results: seq<int>
    var delays: seq<int>
    var actions: nat
    var executions: nat

    constructor (p: Params)
      ensures this.p == p && Current() == NEW_ROW
    {
      this.p := p;
      retryCount, fetchable, results, delays, actions, executions := 0, true, [], [], 0, 0;
    }

    ghost function Current(): Row
      reads this
    {
      Row(retryCount, fetchable, results, delays, actions, executions)
    }

    method SetResult(code: int)
      modifies this
      ensures Current() == WithResult(old(Current()), code)
    {
      fetchable := false;
      results := results + [code];
    }

    /** `database::set_retry`: store the delay, count the retry, allow the next activation. */
    method SetRetry(delay: int)
      modifies this
      ensures Current() == WithRetry(old(Current()), delay)
    {
      fetchable := true;
      retryCount := retryCount + 1;
      delays := delays + [delay];
    }

    /** `s_worker_action::execute`. */
    method Execute(a: Answers)
      modifies this
      ensures Current() == Activate(p, old(Current()), a)
    {
      fetchable := false;
      executions := executions + 1;
      if !a.allowed {
        SetResult(CANCELLED);
        return;
      }
      if !p.channelGroup && p.checkBeforeStart && retryCount == 0 && a.successBefore {
        SetResult(SUCCESS);
        return;
      }
      if retryCount % 2 == 0 {
        actions := actions + 1;
        if p.channelGroup {
          if a.actionResult {
            SetResult(WITHOUT_CONFIRMATION);
          } else if a.connected == IPC_SERVER_UNREACHABLE {
            SetResult(SERVER_UNREACHABLE);
          } else {
            SetResult(FAILURE);
          }
        } else if retryCount == 0 && p.tryLimit <= 1 {
          SetResult(if a.actionResult then WITHOUT_CONFIRMATION else FAILURE);
        } else {
          SetRetry(p.checkTime);
        }
        return;
      }
      if a.success {
        SetResult(SUCCESS);
      } else if p.retryWhenFail && retryCount + 1 < p.tryLimit * 2 {
        SetRetry(p.retryTime - p.checkTime);
      } else if a.failCode > 0 {
        SetResult(a.failCode);
      } else {
        match a.connected
        case 1 => SetResult(FAILURE);
        case 0 => SetResult(DEVICE_UNREACHABLE);
        case -1 => SetResult(SERVER_UNREACHABLE);
        case _ =>
      }
    }
  }

  // ---- whole runs --------------------------------------------------------------------

  /** Activations one after another, as long as the row can be fetched. */
  ghost function Run(p: Params, r: Row, answers: seq<Answers>): Row
    decreases |answers|
  {
    if answers == [] || !r.fetchable then r else Run(p, Activate(p, r, answers[0]), answers[1..])
  }

  ghost function Sum(s: seq<int>): int { if s == [] then 0 else Sum(s[..|s| - 1]) + s[|s| - 1] }

  /** The delay requested by the time `n` retries have been counted. */
  ghost function DelayAfter(p: Params, n: nat): int { n / 2 * p.retryTime + n % 2 * p.checkTime }

  /** A row between two activations: every activation so far was a set followed by a check. */
  ghost predicate Pending(p: Params, r: Row) {
    && r.fetchable && r.results == []
    && r.retryCount <= 2 * p.tryLimit - 1
    && r.executions == r.retryCount
    && r.actions == (r.retryCount + 1) / 2
    && Sum(r.delays) == DelayAfter(p, r.retryCount)
  }

  /** A row that will not be activated again. */
  ghost predicate Finished(p: Params, r: Row) {
    && !r.fetchable && |r.results| <= 1
    && 1 <= r.executions <= 2 * p.tryLimit
    && r.actions <= p.tryLimit
    && Sum(r.delays) <= DelayAfter(p, 2 * p.tryLimit - 1)
  }

  lemma DelayGrows(p: Params, m: nat, n: nat)
    requires p.Sane() && m <= n
    ensures DelayAfter(p, m) <= DelayAfter(p, n)
    decreases n - m
  {
    if m < n {
      DelayNext(p, m);
      DelayGrows(p, m + 1, n);
    }
  }

  lemma DelayNext(p: Params, n: nat)
    ensures DelayAfter(p, n + 1) == DelayAfter(p, n) + if n % 2 == 0 then p.checkTime else p.retryTime - p.checkTime
  {
    if n % 2 == 0 {
      assert (n + 1) / 2 == n / 2 && (n + 1) % 2 == 1;
    } else {
      assert (n + 1) / 2 == n / 2 + 1 && (n + 1) % 2 == 0;
      assert (n / 2 + 1) * p.retryTime == n / 2 * p.retryTime + p.retryTime;
    }
  }

  lemma SumSnoc(s: seq<int>, x: int)
    ensures Sum(s + [x]) == Sum(s) + x
  {
    assert (s + [x])[..|s|] == s;
  }

  /** What an activation decides, without the sums. */
  lemma ActivateShape(p: Params, r: Row, a: Answers)
    requires p.tryLimit >= 1 && r.results == [] && r.retryCount <= 2 * p.tryLimit - 1
    ensures var r' := Activate(p, r, a);
      && r'.executions == r.executions + 1
      && r'.actions <= r.actions + (if r.retryCount % 2 == 0 then 1 else 0)
      && if r'.fetchable then
           && r'.results == [] && r'.retryCount == r.retryCount + 1 <= 2 * p.tryLimit - 1
           && r'.actions == r.actions + (if r.retryCount % 2 == 0 then 1 else 0)
           && r'.delays == r.delays + [if r.retryCount % 2 == 0 then p.checkTime else p.retryTime - p.checkTime]
         else |r'.results| <= 1 && r'.delays == r.delays
  {
  }

  lemma Half(n: nat)
    ensures (n + 2) / 2 == (n + 1) / 2 + (if n % 2 == 0 then 1 else 0)
  {
  }

  /** Every activation either schedules the next one, which is one step closer to the bound,
      or is the last. */
  lemma ActivateProgress(p: Params, r: Row, a: Answers)
    requires p.Sane() && Pending(p, r)
    ensures var r' := Activate(p, r, a);
      if r'.fetchable then Pending(p, r') && r'.retryCount == r.retryCount + 1 else Finished(p, r')
  {
    hide DelayAfter, Sum;
    ActivateShape(p, r, a);
    hide Activate;
    DelayGrows(p, r.retryCount, 2 * p.tryLimit - 1);
    DelayNext(p, r.retryCount);
    SumSnoc(r.delays, if r.retryCount % 2 == 0 then p.checkTime else p.retryTime - p.checkTime);
    Half(r.retryCount);
  }

  /** The answers of one activation leave the execution without retry and without result
      exactly when the very last check fails with no code and the connection state is none of
      the three the code handles. */
  lemma StuckIff(p: Params, r: Row, a: Answers)
    requires Pending(p, r)
    ensures var r' := Activate(p, r, a);
      !r'.fetchable && r'.results == [] <==>
        && a.allowed && r.retryCount % 2 == 1 && !a.success
        && !(p.retryWhenFail && r.retryCount + 1 < p.tryLimit * 2)
        && a.failCode <= 0
        && a.connected !in {IPC_CONNECTED, IPC_DISCONNECTED, IPC_SERVER_UNREACHABLE}
  {
  }

  /** A success is recorded exactly when the success check answers so during that very
      activation, before the first action or after one, or gives the success code itself
      where no retry is left. */
  lemma SuccessIff(p: Params, r: Row, a: Answers)
    requires Pending(p, r)
    ensures Activate(p, r, a).results == [SUCCESS] <==>
      a.allowed &&
      if r.retryCount % 2 == 0 then r.retryCount == 0 && p.checkBeforeStart && !p.channelGroup && a.successBefore
      else a.success || (a.failCode == SUCCESS && !(p.retryWhenFail && r.retryCount + 1 < p.tryLimit * 2))
  {
    var after := Activate(p, r, a).results;
    assert |after| == 1 ==> after == [after[0]];
  }

  /** Whether an activation carries its action out: it is allowed, it is a set and not a
      check, and no check before the start has made it superfluous. */
  ghost predicate Acts(p: Params, r: Row, a: Answers) {
    a.allowed && r.retryCount % 2 == 0 && !(r.retryCount == 0 && !p.channelGroup && p.checkBeforeStart && a.successBefore)
  }

  /** Whether it is a check that fails, with no retry left or wanted. */
  ghost predicate LastFails(p: Params, r: Row, a: Answers) {
    a.allowed && r.retryCount % 2 == 1 && !a.success && !(p.retryWhenFail && r.retryCount + 1 < 2 * p.tryLimit)
  }

  /** Which result an activation records, for each code of the program: 1 for success, 2 for a device that is
      disconnected, 6 for a server out of reach, 7 for any other failure, 8 when the action is
      not allowed, 9 when it is done without a check to follow. A code of the hook's own for a
      last failure takes precedence. */
  lemma ResultIff(p: Params, r: Row, a: Answers)
    requires Pending(p, r)
    ensures var results := Activate(p, r, a).results;
      var unchecked := p.channelGroup || (r.retryCount == 0 && p.tryLimit <= 1);
      if LastFails(p, r, a) && a.failCode > 0 then results == [a.failCode]
      else
        && (results == [8] <==> !a.allowed)
        && (results == [1] <==> a.allowed && if r.retryCount % 2 == 0 then !Acts(p, r, a) else a.success)
        && (results == [9] <==> Acts(p, r, a) && unchecked && a.actionResult)
        && (results == [2] <==> LastFails(p, r, a) && a.connected == 0)
        && (results == [6] <==> a.connected == -1 && (LastFails(p, r, a) || (Acts(p, r, a) && p.channelGroup && !a.actionResult)))
        && (results == [7] <==>
              || (LastFails(p, r, a) && a.connected == 1)
              || (Acts(p, r, a) && unchecked && !a.actionResult && !(p.channelGroup && a.connected == -1)))
  {
    var results := Activate(p, r, a).results;
    assert |results| == 1 ==> results == [results[0]];
  }

  /** Exactly when an activation acts, and when and with what delay it asks for another. */
  lemma RetryIff(p: Params, r: Row, a: Answers)
    requires Pending(p, r)
    ensures var r' := Activate(p, r, a);
      var unchecked := p.channelGroup || (r.retryCount == 0 && p.tryLimit <= 1);
      var wait := Acts(p, r, a) && !unchecked;
      var again := a.allowed && r.retryCount % 2 == 1 && !a.success && p.retryWhenFail && r.retryCount + 1 < 2 * p.tryLimit;
      && r'.actions == r.actions + (if Acts(p, r, a) then 1 else 0)
      && (r'.fetchable <==> wait || again)
      && r'.delays == r.delays + (if wait then [p.checkTime] else if again then [p.retryTime - p.checkTime] else [])
      && r'.retryCount == r.retryCount + (if r'.fetchable then 1 else 0)
  {
  }

  /** What the program's own hooks answer: `ipc_client::is_connected` returns one of three
      states, and a success check gives no code of its own, or one of two. */
  ghost predicate OwnHooks(a: Answers) {
    a.connected in {IPC_CONNECTED, IPC_DISCONNECTED, IPC_SERVER_UNREACHABLE} && a.failCode in {0, NO_SENSOR, VALVE_CLOSED}
  }

  /** With these hooks no activation gets stuck, and a success is recorded exactly when the
      check of that activation answers so. */
  lemma OwnHooksDecide(p: Params, r: Row, a: Answers)
    requires Pending(p, r) && OwnHooks(a)
    ensures var r' := Activate(p, r, a);
      && (r'.fetchable || |r'.results| == 1)
      && (r'.results == [SUCCESS] <==>
          a.allowed &&
          if r.retryCount % 2 == 0 then r.retryCount == 0 && p.checkBeforeStart && !p.channelGroup && a.successBefore
          else a.success)
  {
    SuccessIff(p, r, a);
    StuckIff(p, r, a);
  }

  lemma {:induction false} RunBounded(p: Params, r: Row, answers: seq<Answers>)
    requires p.Sane() && Pending(p, r)
    ensures var r' := Run(p, r, answers);
      Finished(p, r') || (Pending(p, r') && r'.retryCount == r.retryCount + |answers|)
    decreases |answers|
  {
    hide Activate, Pending, Finished;
    if answers != [] && r.fetchable {
      ActivateProgress(p, r, answers[0]);
      var r1 := Activate(p, r, answers[0]);
      if r1.fetchable {
        RunBounded(p, r1, answers[1..]);
      }
    } else {
      assert r.fetchable by {
        PendingFetchable(p, r);
      }
    }
  }

  lemma PendingFetchable(p: Params, r: Row)
    requires Pending(p, r)
    ensures r.fetchable
  {
  }

  /** Every complete run, from a new row with enough activations to come: at most two
      activations and one action per try, at most one result, and a total requested delay
      within (limit - 1) retries plus one check, which is within `get_max_time`. */
  lemma WholeRun(p: Params, answers: seq<Answers>)
    requires p.Sane() && |answers| >= 2 * p.tryLimit
    ensures var r := Run(p, NEW_ROW, answers);
      && !r.fetchable && |r.results| <= 1
      && 1 <= r.executions <= 2 * p.tryLimit && r.actions <= p.tryLimit
      && Sum(r.delays) <= (p.tryLimit - 1) * p.retryTime + p.checkTime <= p.tryLimit * p.retryTime == p.MaxTime()
  {
    MaxDelay(p);
    assert Sum([]) == 0;
    hide DelayAfter, Sum, Run;
    RunBounded(p, NEW_ROW, answers);
  }

  lemma MaxDelay(p: Params)
    requires p.Sane()
    ensures DelayAfter(p, 0) == 0
    ensures DelayAfter(p, 2 * p.tryLimit - 1) == (p.tryLimit - 1) * p.retryTime + p.checkTime <= p.MaxTime()
  {
    var k := p.tryLimit - 1;
    assert (2 * k + 1) / 2 == k && (2 * k + 1) % 2 == 1;
    assert (k + 1) * p.retryTime == k * p.retryTime + p.retryTime;
  }

  /** With a connection state the code handles in every activation, a complete run ends with
      exactly one result. */
  lemma {:induction false} ExactlyOneResult(p: Params, r: Row, answers: seq<Answers>)
    requires p.Sane() && Pending(p, r)
    requires |answers| >= 2 * p.tryLimit - r.retryCount
    requires forall a <- answers :: a.connected in {IPC_CONNECTED, IPC_DISCONNECTED, IPC_SERVER_UNREACHABLE}
    ensures |Run(p, r, answers).results| == 1
    decreases |answers|
  {
    ActivateProgress(p, r, answers[0]);
    StuckIff(p, r, answers[0]);
    assert answers[0] in answers;
    var r1 := Activate(p, r, answers[0]);
    hide Activate;
    if r1.fetchable {
      ExactlyOneResult(p, r1, answers[1..]);
    }
  }
}
