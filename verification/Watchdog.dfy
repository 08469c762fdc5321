/** The bounded run loop that wakes an agent turn after turn, and the short history it keeps. */
module Watchdog {
  import opened Collections

  const EXIT_OK := 0
  const EXIT_TURNS_EXHAUSTED := 1
  const EXIT_WALL_CLOCK := 2
  const EXIT_LLM_ERRORS := 3
  const MAX_CONSECUTIVE_LLM_ERRORS := 5
  const MAX_TAIL := 3

  datatype Limits = Limits(maxTotalTurns: int, maxWallClock: int)

  /** What the loop meets at one turn: the stop predicate, the clock, and how an invocation would go. */
  datatype Turn = Turn(stop: bool, elapsed: real, prompt: string, ok: bool, stdout: string, stderr: string)

  datatype TurnRecord = TurnRecord(turn: nat, prompt: string, response: string)

  function Last<T>(s: seq<T>, n: nat): (tail: seq<T>)
    ensures |tail| <= n
  {
    if |s| <= n then s else s[|s| - n..]
  }

  class TurnHistory {
    const maxTail: nat
    var records: seq<TurnRecord>

    constructor (maxTail: nat)
      ensures this.maxTail == maxTail && records == []
    {
      this.maxTail := maxTail;
      records := [];
    }

    method Append(r: TurnRecord)
      modifies this
      ensures records == Last(old(records) + [r], maxTail)
      ensures |records| == if |old(records)| + 1 <= maxTail then |old(records)| + 1 else maxTail
      ensures records == (old(records) + [r])[|old(records)| + 1 - |records|..]
    {
      records := records + [r];
      if |records| > maxTail {
        records := records[|records| - maxTail..];
      }
    }
  }

  /** A bounded history holds the end of everything ever appended. */
  lemma LastOfLast<T>(all: seq<T>, x: T, n: nat)
    ensures Last(Last(all, n) + [x], n) == Last(all + [x], n)
  {
  }

  function First600(s: string): string {
    if |s| <= 600 then s else s[..600]
  }

  function RecordOf(n: nat, t: Turn): TurnRecord {
    TurnRecord(
      n, t.prompt,
      if t.ok then t.stdout
      else "OpenClaw subprocess failed before completing a bounded turn. stderr: " + First600(t.stderr))
  }

  /** The records of turns 1 to n. */
  function AllRecords(world: nat -> Turn, n: nat): seq<TurnRecord> {
    seq(n, i requires 0 <= i < n => RecordOf(i + 1, world(i + 1)))
  }

  lemma AppendedRecord(world: nat -> Turn, n: nat)
    ensures Last(Last(AllRecords(world, n), MAX_TAIL) + [RecordOf(n + 1, world(n + 1))], MAX_TAIL) ==
            Last(AllRecords(world, n + 1), MAX_TAIL)
  {
    hide RecordOf;
    LastOfLast(AllRecords(world, n), RecordOf(n + 1, world(n + 1)), MAX_TAIL);
    assert AllRecords(world, n + 1) == AllRecords(world, n) + [RecordOf(n + 1, world(n + 1))];
  }

  /** The exit decided before anything is invoked: the goal first, then the two caps. */
  function Verdict(world: nat -> Turn, limits: Limits, n: nat): Option<int> {
    if world(n).stop then Some(EXIT_OK)
    else if n >= limits.maxTotalTurns then Some(EXIT_TURNS_EXHAUSTED)
    else if world(n).elapsed >= limits.maxWallClock as real then Some(EXIT_WALL_CLOCK)
    else None
  }

  /** How many invocations in a row, ending with turn n, have failed. */
  function Errors(world: nat -> Turn, n: nat): nat {
    if n == 0 || world(n).ok then 0 else Errors(world, n - 1) + 1
  }

  ghost predicate Continues(world: nat -> Turn, limits: Limits, n: nat) {
    Verdict(world, limits, n) == None && Errors(world, n) < MAX_CONSECUTIVE_LLM_ERRORS
  }

  ghost predicate Reached(world: nat -> Turn, limits: Limits, turn: nat) {
    turn >= 1 && forall k :: 1 <= k < turn ==> Continues(world, limits, k)
  }

  lemma ReachedNext(world: nat -> Turn, limits: Limits, turn: nat)
    requires Reached(world, limits, turn) && Continues(world, limits, turn)
    ensures Reached(world, limits, turn + 1)
  {
  }

  ghost predicate EndsAt(world: nat -> Turn, limits: Limits, turn: nat, code: int) {
    && Reached(world, limits, turn)
    && match Verdict(world, limits, turn)
       case Some(verdict) => code == verdict
       case None => code == EXIT_LLM_ERRORS && Errors(world, turn) >= MAX_CONSECUTIVE_LLM_ERRORS
  }

  lemma NothingYet(world: nat -> Turn, limits: Limits)
    ensures Last(AllRecords(world, 0), MAX_TAIL) == [] && Reached(world, limits, 1)
  {
  }

  method Drive(world: nat -> Turn, limits: Limits, history: TurnHistory)
    returns (code: int, turn: nat, invocations: nat)
    requires history.records == [] && history.maxTail == MAX_TAIL
    modifies history
    ensures EndsAt(world, limits, turn, code)
    ensures turn <= Max(1, limits.maxTotalTurns)
    ensures invocations == (if code == EXIT_LLM_ERRORS then turn else turn - 1)
    ensures invocations <= Max(0, limits.maxTotalTurns - 1)
    ensures history.records == Last(AllRecords(world, invocations), MAX_TAIL)
  {
    hide RecordOf, AllRecords, Last, Reached;
    NothingYet(world, limits);
    var errors := 0;
    turn, invocations := 0, 0;
    while true
      invariant invocations == turn && turn < Max(1, limits.maxTotalTurns)
      invariant errors == Errors(world, turn) < MAX_CONSECUTIVE_LLM_ERRORS
      invariant Reached(world, limits, turn + 1)
      invariant history.records == Last(AllRecords(world, turn), MAX_TAIL)
      decreases limits.maxTotalTurns - turn
    {
      turn := turn + 1;
      var now := world(turn);
      if now.stop {
        return EXIT_OK, turn, invocations;
      }
      if turn >= limits.maxTotalTurns {
        return EXIT_TURNS_EXHAUSTED, turn, invocations;
      }
      if now.elapsed >= limits.maxWallClock as real {
        return EXIT_WALL_CLOCK, turn, invocations;
      }
      invocations := invocations + 1;
      AppendedRecord(world, turn - 1);
      if !now.ok {
        errors := errors + 1;
        history.Append(RecordOf(turn, now));
        if errors >= MAX_CONSECUTIVE_LLM_ERRORS {
          return EXIT_LLM_ERRORS, turn, invocations;
        }
      } else {
        errors := 0;
        history.Append(RecordOf(turn, now));
      }
      ReachedNext(world, limits, turn);
    }
  }

  /** The error count is at least m exactly when the last m invocations all failed. */
  lemma {:induction false} ErrorsAtLeastIff(world: nat -> Turn, n: nat, m: nat)
    ensures Errors(world, n) >= m <==> m <= n && forall i :: n - m < i <= n ==> !world(i).ok
    decreases m
  {
    if m > 0 && n > 0 && !world(n).ok {
      ErrorsAtLeastIff(world, n - 1, m - 1);
    }
  }

  /** A run ends in exactly one way. */
  lemma EndsOnce(world: nat -> Turn, limits: Limits, t1: nat, c1: int, t2: nat, c2: int)
    requires EndsAt(world, limits, t1, c1) && EndsAt(world, limits, t2, c2)
    ensures t1 == t2 && c1 == c2
  {
    assert t1 < t2 ==> Continues(world, limits, t1);
    assert t2 < t1 ==> Continues(world, limits, t2);
  }

  /** The last five invocations up to turn n all failed. */
  ghost predicate FiveFailures(world: nat -> Turn, n: nat) {
    n >= 5 && forall i :: n - 5 < i <= n ==> !world(i).ok
  }

  /** Some exit is due at turn n: the goal, the turn cap, the wall clock, or a fifth failure in a row. */
  ghost predicate ExitDue(world: nat -> Turn, limits: Limits, n: nat) {
    || world(n).stop
    || n >= limits.maxTotalTurns
    || world(n).elapsed >= limits.maxWallClock as real
    || FiveFailures(world, n)
  }

  lemma ContinuesIff(world: nat -> Turn, limits: Limits, n: nat)
    ensures Continues(world, limits, n) <==> !ExitDue(world, limits, n)
  {
    ErrorsAtLeastIff(world, n, 5);
  }

  /** A run ends at its first turn with an exit due, and the exit code is the first of the four that is. */
  lemma EndsAtIff(world: nat -> Turn, limits: Limits, turn: nat, code: int)
    ensures EndsAt(world, limits, turn, code) <==>
              && turn >= 1 && ExitDue(world, limits, turn)
              && (forall k :: 1 <= k < turn ==> !ExitDue(world, limits, k))
              && code == (if world(turn).stop then 0
                          else if turn >= limits.maxTotalTurns then 1
                          else if world(turn).elapsed >= limits.maxWallClock as real then 2
                          else 3)
  {
    forall k | 1 <= k < turn ensures Continues(world, limits, k) <==> !ExitDue(world, limits, k) {
      ContinuesIff(world, limits, k);
    }
    ContinuesIff(world, limits, turn);
  }

  /** Exit 3 means the last five invocations failed and no exit was due before, and nothing else does. */
  lemma LlmErrorsIff(world: nat -> Turn, limits: Limits, turn: nat, code: int)
    requires EndsAt(world, limits, turn, code)
    ensures code == 3 <==>
              && !world(turn).stop && turn < limits.maxTotalTurns
              && world(turn).elapsed < limits.maxWallClock as real
              && turn >= 5 && forall i :: turn - 5 < i <= turn ==> !world(i).ok
    ensures code == 3 && turn > 5 ==> world(turn - 5).ok
  {
    EndsAtIff(world, limits, turn, code);
    if code == 3 && turn > 5 {
      assert !ExitDue(world, limits, turn - 1);
    }
  }

  /** Exit 2 means the time was up with turns left and the goal unmet, at the first turn that began too late. */
  lemma WallClockIff(world: nat -> Turn, limits: Limits, turn: nat, code: int)
    requires EndsAt(world, limits, turn, code)
    ensures code == 2 <==>
              && !world(turn).stop && turn < limits.maxTotalTurns
              && world(turn).elapsed >= limits.maxWallClock as real
    ensures forall k :: 1 <= k < turn ==> world(k).elapsed < limits.maxWallClock as real
  {
    EndsAtIff(world, limits, turn, code);
    forall k | 1 <= k < turn ensures world(k).elapsed < limits.maxWallClock as real {
      assert !ExitDue(world, limits, k);
    }
  }

  /** A run reports success exactly when it ends at the goal: a goal at a reached turn beats both caps. */
  lemma GoalBeatsTheCaps(world: nat -> Turn, limits: Limits, goal: nat, turn: nat, code: int)
    requires Reached(world, limits, goal) && EndsAt(world, limits, turn, code)
    ensures world(goal).stop <==> turn == goal && code == 0
  {
    if world(goal).stop {
      EndsOnce(world, limits, goal, 0, turn, code);
    }
  }

  /** Turns are exhausted exactly at the cap, reached with the goal unmet. */
  lemma TurnsExhaustedIff(world: nat -> Turn, limits: Limits, turn: nat, code: int)
    requires EndsAt(world, limits, turn, code)
    ensures code == 1 <==> !world(turn).stop && turn == if limits.maxTotalTurns < 1 then 1 else limits.maxTotalTurns
  {
    assert turn > 1 ==> Continues(world, limits, turn - 1);
  }

  /** What is kept of a run: its last three invocations in order, each with its prompt and what came back. */
  lemma KeptRecords(world: nat -> Turn, n: nat, k: nat)
    requires k < |Last(AllRecords(world, n), MAX_TAIL)|
    ensures |Last(AllRecords(world, n), MAX_TAIL)| == if n < 3 then n else 3
    ensures var kept := Last(AllRecords(world, n), MAX_TAIL);
            var turn := n - |kept| + k + 1;
            kept[k].turn == turn && Recorded(world(turn), kept[k])
  {
    hide Recorded;
    var kept := Last(AllRecords(world, n), MAX_TAIL);
    var turn := n - |kept| + k + 1;
    RecordedAsMet(turn, world(turn));
    assert kept[k] == AllRecords(world, n)[turn - 1] == RecordOf(turn, world(turn));
  }

  /** The record has the turn's prompt, and its output or, of a failed one, the first 600 characters of its complaint. */
  ghost predicate Recorded(t: Turn, r: TurnRecord) {
    && r.prompt == t.prompt
    && (t.ok ==> r.response == t.stdout)
    && (!t.ok && |t.stderr| <= 600 ==>
          r.response == "OpenClaw subprocess failed before completing a bounded turn. stderr: " + t.stderr)
    && (!t.ok && |t.stderr| > 600 ==>
          r.response == "OpenClaw subprocess failed before completing a bounded turn. stderr: " + t.stderr[..600])
  }

  lemma RecordedAsMet(n: nat, t: Turn)
    ensures Recorded(t, RecordOf(n, t)) && RecordOf(n, t).turn == n
  {
  }
}
