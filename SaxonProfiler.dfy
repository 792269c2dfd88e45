/**
 * The Saxon flat profiler: a trace listener that times every instruction
 * between its `enter` and `leave` events, aggregates the times per
 * instruction, and turns the result into a flat profile report.
 *
 * The clock (`System.nanoTime`) and the wall-clock creation date are
 * parameters of the operations that read them.
 */
module SaxonProfiler {
  import opened Wrappers

  /** An instruction the Saxon tracer reports; `id` stands for its identity and its (32-bit, possibly negative) hash code. */
  datatype Instruction = Instruction(id: int, isClauseInfo: bool, objectName: Option<string>)

  /** A `SaxonProfileInstruction`: an instruction, a time and a count. */
  datatype Record = Record(instruction: Instruction, totalTime: int, count: nat)

  /** `Stack.pop` on an empty stack. */
  datatype Exception = EmptyStackException

  /** The part of the listener the trace events change. */
  datatype Profile = Profile(instructions: seq<Record>, results: map<Instruction, Record>)

  /** `enter`: clause-info instructions are ignored; any other is pushed with the current time. */
  function EnterStep(p: Profile, instruction: Instruction, now: int): (r: Profile)
    ensures r.results == p.results
    ensures instruction.isClauseInfo ==> r == p
    ensures !instruction.isClauseInfo ==> r.instructions == p.instructions + [Record(instruction, now, 1)]
  {
    if instruction.isClauseInfo then p
    else p.(instructions := p.instructions + [Record(instruction, now, 1)])
  }

  /**
   * `leave`: clause-info instructions are ignored; otherwise the top record
   * is popped, its time becomes the time since it was pushed, and it is
   * stored under the instruction left, or added to what is stored there.
   */
  function LeaveStep(p: Profile, instruction: Instruction, now: int): Result<Profile, Exception> {
    if instruction.isClauseInfo then Ok(p)
    else if |p.instructions| == 0 then Err(EmptyStackException)
    else
      var top := p.instructions[|p.instructions| - 1];
      var current := top.(totalTime := now - top.totalTime);
      var stored :=
        if instruction !in p.results then current
        else
          var result := p.results[instruction];
          result.(totalTime := result.totalTime + current.totalTime, count := result.count + 1);
      Ok(Profile(p.instructions[..|p.instructions| - 1], p.results[instruction := stored]))
  }

  /** Every record on the stack is still as `enter` made it, with count 1. */
  predicate Pending(p: Profile) {
    forall k :: 0 <= k < |p.instructions| ==> p.instructions[k].count == 1
  }

  /** How many times an instruction has been left so far. */
  function Count(p: Profile, instruction: Instruction): nat {
    if instruction in p.results then p.results[instruction].count else 0
  }

  /** The total time an instruction has accumulated so far. */
  function Total(p: Profile, instruction: Instruction): int {
    if instruction in p.results then p.results[instruction].totalTime else 0
  }

  /**
   * One `leave` adds one to the count of the instruction left and the time
   * since the matching `enter` to its total; nothing else is touched.
   */
  lemma LeaveAggregates(p: Profile, instruction: Instruction, now: int)
    requires !instruction.isClauseInfo && |p.instructions| > 0 && Pending(p)
    ensures LeaveStep(p, instruction, now).Ok?
    ensures Count(LeaveStep(p, instruction, now).value, instruction) == Count(p, instruction) + 1
    ensures Total(LeaveStep(p, instruction, now).value, instruction)
         == Total(p, instruction) + (now - p.instructions[|p.instructions| - 1].totalTime)
    ensures forall other :: other != instruction ==>
      Count(LeaveStep(p, instruction, now).value, other) == Count(p, other) &&
      Total(LeaveStep(p, instruction, now).value, other) == Total(p, other)
    ensures LeaveStep(p, instruction, now).value.instructions == p.instructions[..|p.instructions| - 1]
    ensures Pending(LeaveStep(p, instruction, now).value)
  {
    assert instruction !in p.results ==> Count(p, instruction) == 0 && Total(p, instruction) == 0;
  }

  /** A trace event with the clock reading at which it happened. */
  datatype Event = Enter(instruction: Instruction, now: int) | Leave(instruction: Instruction, now: int)

  /** The profile after a sequence of events, or the exception that stops the trace. */
  function Replay(p: Profile, events: seq<Event>): Result<Profile, Exception>
    decreases |events|
  {
    if |events| == 0 then Ok(p)
    else
      match events[0]
      case Enter(i, now) => Replay(EnterStep(p, i, now), events[1..])
      case Leave(i, now) =>
        match LeaveStep(p, i, now)
        case Ok(p') => Replay(p', events[1..])
        case Err(e) => Err(e)
  }

  /** The number of `leave` events for an instruction. */
  function Leaves(events: seq<Event>, instruction: Instruction): nat
    decreases |events|
  {
    if |events| == 0 then 0
    else (if events[0].Leave? && events[0].instruction == instruction then 1 else 0) + Leaves(events[1..], instruction)
  }

  /** The number of events that push or pop the stack (clause-info instructions do neither). */
  function Depth(events: seq<Event>): int
    decreases |events|
  {
    if |events| == 0 then 0
    else
      (if events[0].instruction.isClauseInfo then 0 else if events[0].Enter? then 1 else -1)
        + Depth(events[1..])
  }

  /**
   * Over a whole trace, the count stored for an instruction is the number
   * of times it was left, and the stack grows by the enters minus the leaves.
   */
  lemma {:induction false} ReplayCounts(p: Profile, events: seq<Event>, instruction: Instruction)
    requires !instruction.isClauseInfo && Pending(p)
    requires Replay(p, events).Ok?
    ensures Count(Replay(p, events).value, instruction) == Count(p, instruction) + Leaves(events, instruction)
    ensures |Replay(p, events).value.instructions| == |p.instructions| + Depth(events)
    decreases |events|
  {
    if |events| > 0 {
      match events[0]
      case Enter(i, now) =>
        ReplayCounts(EnterStep(p, i, now), events[1..], instruction);
      case Leave(i, now) =>
        if i.isClauseInfo {
          ReplayCounts(p, events[1..], instruction);
        } else {
          LeaveAggregates(p, i, now);
          ReplayCounts(LeaveStep(p, i, now).value, events[1..], instruction);
        }
    }
  }

  /** The trace events of clause-info instructions alone change nothing. */
  lemma {:induction false} ClauseInfoIgnored(p: Profile, events: seq<Event>)
    requires forall k :: 0 <= k < |events| ==> events[k].instruction.isClauseInfo
    ensures Replay(p, events) == Ok(p)
    decreases |events|
  {
    if |events| > 0 {
      ClauseInfoIgnored(p, events[1..]);
    }
  }

  /** The Saxon trace listener with the state the profiler keeps. */
  class ProfileTraceListener {
    const version: string
    var elapsed: int
    var created: Option<int>
    var instructions: seq<Record>
    var results: map<Instruction, Record>

    /** The profile the trace events change. */
    function State(): Profile
      reads this
    {
      Profile(instructions, results)
    }

    constructor(version: string)
      ensures this.version == version && elapsed == 0 && created == None
      ensures State() == Profile([], map[])
    {
      this.version := version;
      elapsed := 0;
      created := None;
      instructions := [];
      results := map[];
    }

    /** `onstart`: remember the start time and the creation date. */
    method OnStart(now: int, date: int)
      modifies this
      ensures elapsed == now && created == Some(date)
      ensures State() == old(State())
    {
      elapsed := now;
      created := Some(date);
    }

    /** `onfinish`: the elapsed time is the finish time minus the start time. */
    method OnFinish(now: int)
      modifies this
      ensures elapsed == now - old(elapsed)
      ensures created == old(created) && State() == old(State())
    {
      elapsed := now - elapsed;
    }

    method Enter(instruction: Instruction, now: int)
      modifies this
      ensures State() == EnterStep(old(State()), instruction, now)
      ensures elapsed == old(elapsed) && created == old(created)
    {
      if instruction.isClauseInfo {
        return;
      }
      instructions := instructions + [Record(instruction, now, 1)];
    }

    method Leave(instruction: Instruction, now: int) returns (r: Result<(), Exception>)
      modifies this
      ensures LeaveStep(old(State()), instruction, now).Ok? ==>
        r.Ok? && State() == LeaveStep(old(State()), instruction, now).value
      ensures LeaveStep(old(State()), instruction, now).Err? ==>
        r == Err(LeaveStep(old(State()), instruction, now).error) && State() == old(State())
      ensures elapsed == old(elapsed) && created == old(created)
    {
      if instruction.isClauseInfo {
        return Ok(());
      }
      if |instructions| == 0 {
        return Err(EmptyStackException);
      }
      var current := instructions[|instructions| - 1];
      instructions := instructions[..|instructions| - 1];
      current := current.(totalTime := now - current.totalTime);
      if instruction !in results {
        results := results[instruction := current];
      } else {
        var result := results[instruction];
        results := results[instruction := result.(totalTime := result.totalTime + current.totalTime, count := result.count + 1)];
      }
      return Ok(());
    }
  }

  /** A row of a flat profile report; `frame` is left out. */
  datatype Entry = Entry(id: string, context: string, count: nat, selfTime: int, totalTime: int)

  datatype Report = Report(elapsed: int, created: Option<int>, version: string, results: seq<Entry>)

  /** The number a string of decimal digits denotes, most significant digit first. */
  function DigitsValue(s: string): int {
    if |s| == 0 then 0 else DigitsValue(s[..|s| - 1]) * 10 + (s[|s| - 1] as int - 48)
  }

  /** The decimal digits of a natural number, without leading zeros. */
  function Digits(n: nat): (r: string)
    ensures |r| > 0 && forall k :: 0 <= k < |r| ==> '0' <= r[k] <= '9'
    ensures |r| > 1 ==> r[0] != '0'
    ensures DigitsValue(r) == n
  {
    if n < 10 then
      var r := [(48 + n) as char];
      assert r[..0] == [];
      r
    else
      var prefix := Digits(n / 10);
      var r := prefix + [(48 + n % 10) as char];
      assert r[..|r| - 1] == prefix;
      r
  }

  /** The number a decimal string with an optional leading `-` denotes. */
  function DecimalValue(s: string): int {
    if |s| > 0 && s[0] == '-' then -DigitsValue(s[1..]) else DigitsValue(s)
  }

  /** `Int.toString`: a `-` for a negative number, then the digits of its magnitude. */
  function Decimal(n: int): (r: string)
    ensures |r| > 0 && (r[0] == '-' <==> n < 0)
    ensures DecimalValue(r) == n
  {
    if n < 0 then
      var r := "-" + Digits(-n);
      assert r[1..] == Digits(-n);
      r
    else Digits(n)
  }

  /** `toProfileEntry`: the object name is the context; self time is the total time. */
  function ToProfileEntry(record: Record): (r: Entry)
    ensures r.selfTime == r.totalTime == record.totalTime && r.count == record.count
    ensures DecimalValue(r.id) == record.instruction.id
    ensures r.context == (if record.instruction.objectName.Some? then record.instruction.objectName.value else "")
  {
    Entry(Decimal(record.instruction.id), (match record.instruction.objectName case Some(name) => name case None => ""), record.count, record.totalTime, record.totalTime)
  }

  /** Whether `order` lists every stored instruction exactly once (the hash map's iteration order). */
  predicate IsOrderOf(order: seq<Instruction>, results: map<Instruction, Record>) {
    (forall k :: 0 <= k < |order| ==> order[k] in results) &&
    (forall i :: i in results ==> i in order) &&
    (forall j, k :: 0 <= j < k < |order| ==> order[j] != order[k])
  }

  /**
   * `toProfileReport`: one entry for the whole query (count 1, no self
   * time, the elapsed time as total) followed by one entry per result.
   */
  function ToProfileReport(elapsed: int, created: Option<int>, version: string,
                           results: map<Instruction, Record>, order: seq<Instruction>): (r: Report)
    requires IsOrderOf(order, results)
    ensures r.elapsed == elapsed && r.created == created && r.version == version
    ensures |r.results| == |order| + 1 == |results| + 1
    ensures r.results[0] == Entry("", "", 1, 0, elapsed)
    ensures forall k :: 0 <= k < |order| ==> r.results[k + 1] == ToProfileEntry(results[order[k]])
  {
    DistinctCoversMap(order, results);
    Report(elapsed, created, version, [Entry("", "", 1, 0, elapsed)] + seq(|order|, k requires 0 <= k < |order| => ToProfileEntry(results[order[k]])))
  }

  lemma DistinctCoversMap(order: seq<Instruction>, results: map<Instruction, Record>)
    requires IsOrderOf(order, results)
    ensures |order| == |results|
  {
    var keys := set k | 0 <= k < |order| :: order[k];
    assert keys == results.Keys;
    DistinctCard(order);
  }

  lemma {:induction false} DistinctCard(order: seq<Instruction>)
    requires forall j, k :: 0 <= j < k < |order| ==> order[j] != order[k]
    ensures |set k | 0 <= k < |order| :: order[k]| == |order|
  {
    if |order| > 0 {
      var init := order[..|order| - 1];
      DistinctCard(init);
      var s := set k | 0 <= k < |init| :: init[k];
      assert (set k | 0 <= k < |order| :: order[k]) == s + {order[|order| - 1]};
      assert order[|order| - 1] !in s;
    }
  }
}
