/** Program: reads CSV rows, routes each to the file or the console lane of one
    ProcessorQueue at a paced rate, and supplies the processing function that writes a file
    item to the output file and a console item to the console. Console and file I/O are
    modelled as an `Output` value, configuration settings and clock readings as parameters. */
module Program {
  import opened DotNet
  import opened Strings
  import opened Model
  import opened QueueingItem
  import opened Queueing

  // ---------------------------------------------------------------------------
  // GetCsvData: each line split on ',' into a (Type, Payload) row.
  // ---------------------------------------------------------------------------

  /** One row of the `select` in GetCsvData: `q[0]` and `q[1]` of the line split on ','.
      A line without a comma splits into one field, so `q[1]` throws. */
  function ParseLine(line: string): (r: Result<CsvPayload>)
    ensures r.Ok? <==> ',' in line
    ensures r.Err? ==> r.error == IndexOutOfRange
  {
    SplitHasSecondField(line, ',');
    var q := Split(line, ',');
    if |q| < 2 then Err(IndexOutOfRange) else Ok(CsvPayload(q[0], q[1]))
  }

  /** A parsed row's Type is the text before the first comma and its Payload the text up to
      the next comma or the end of the line; later fields are dropped, nothing is trimmed. */
  lemma ParseLineFields(line: string)
    requires ',' in line
    ensures var row := ParseLine(line).value;
            var n := |row.Type| + 1 + |row.Payload|;
            && ',' !in row.Type && ',' !in row.Payload
            && row.Type + [','] + row.Payload <= line
            && (n == |line| || line[n] == ',')
  {
    var q := Split(line, ',');
    SplitHasSecondField(line, ',');
    assert line == q[0] + [','] + Join(q[1..], ',');
    var tail := q[1..];
    if |tail| == 1 {
      assert line == q[0] + [','] + q[1];
    } else {
      assert Join(tail, ',') == q[1] + [','] + Join(tail[1..], ',');
      assert line == q[0] + [','] + q[1] + ([','] + Join(tail[1..], ','));
    }
  }

  /** The converse: a line made of a Type, a comma, a Payload and either nothing or a comma
      and anything parses back to exactly that Type and Payload. */
  lemma ParseLineOfFields(queueType: string, payload: string, rest: string)
    requires ',' !in queueType && ',' !in payload
    requires rest == [] || rest[0] == ','
    ensures ParseLine(queueType + [','] + payload + rest) == Ok(CsvPayload(queueType, payload))
  {
    var line := queueType + [','] + payload + rest;
    var tail := if rest == [] then [] else Split(rest[1..], ',');
    PayloadFields(payload, rest);
    SplitField(queueType, ',', payload + rest);
    assert line == queueType + [','] + (payload + rest);
    assert Split(line, ',') == [queueType] + ([payload] + tail);
  }

  /** The fields of a payload followed by nothing, or by a comma and more fields. */
  lemma PayloadFields(payload: string, rest: string)
    requires ',' !in payload
    requires rest == [] || rest[0] == ','
    ensures Split(payload + rest, ',') == [payload] + (if rest == [] then [] else Split(rest[1..], ','))
  {
    if rest == [] {
      SplitNoSeparator(payload, ',');
      assert payload + rest == payload;
    } else {
      SplitField(payload, ',', rest[1..]);
      assert payload + rest == payload + [','] + rest[1..];
    }
  }

  /** The LINQ query with ToList: the lines parsed in order; the first line without a comma
      throws and the whole query yields no list. */
  function ParseLines(lines: seq<string>): (r: Result<seq<CsvPayload>>)
    ensures r.Ok? <==> forall i :: 0 <= i < |lines| ==> ',' in lines[i]
    ensures r.Ok? ==> |r.value| == |lines| &&
                      forall i :: 0 <= i < |lines| ==> ParseLine(lines[i]) == Ok(r.value[i])
    ensures r.Err? ==> r.error == IndexOutOfRange
    decreases |lines|
  {
    if lines == [] then Ok([])
    else
      match ParseLine(lines[0])
      case Err(e) => Err(e)
      case Ok(row) =>
        match ParseLines(lines[1..])
        case Err(e) => Err(e)
        case Ok(rows) => Ok([row] + rows)
  }

  /** GetCsvData: `csvFile` holds the lines of the CSV file, or None when the file does not
      exist. A missing file, or a line without a comma anywhere in it (the exception is
      caught), leaves the initial empty list. */
  function GetCsvData(csvFile: Option<seq<string>>): (payloads: seq<CsvPayload>)
    ensures csvFile.None? ==> payloads == []
    ensures csvFile.Some? && (exists i :: 0 <= i < |csvFile.value| && ',' !in csvFile.value[i]) ==>
              payloads == []
    ensures csvFile.Some? && (forall i :: 0 <= i < |csvFile.value| ==> ',' in csvFile.value[i]) ==>
              |payloads| == |csvFile.value| &&
              forall i :: 0 <= i < |payloads| ==> ParseLine(csvFile.value[i]) == Ok(payloads[i])
  {
    match csvFile
    case None => []
    case Some(data) =>
      match ParseLines(data)
      case Ok(rows) => rows
      case Err(_) => []
  }

  /** A row written as a CSV line: its Type, a comma and its Payload. */
  function CsvLine(row: CsvPayload): string
  {
    row.Type + [','] + row.Payload
  }

  /** GetCsvData reads back the rows a CSV file was written from, as long as no field
      contains a comma. */
  lemma GetCsvDataRoundTrip(rows: seq<CsvPayload>)
    requires forall i :: 0 <= i < |rows| ==> ',' !in rows[i].Type && ',' !in rows[i].Payload
    ensures GetCsvData(Some(seq(|rows|, i requires 0 <= i < |rows| => CsvLine(rows[i])))) == rows
  {
    var lines := seq(|rows|, i requires 0 <= i < |rows| => CsvLine(rows[i]));
    forall i | 0 <= i < |rows|
      ensures ParseLine(lines[i]) == Ok(rows[i])
    {
      ParseLineOfFields(rows[i].Type, rows[i].Payload, []);
      assert lines[i] == rows[i].Type + [','] + rows[i].Payload + [];
    }
    assert forall i :: 0 <= i < |lines| ==> ',' in lines[i] by {
      forall i | 0 <= i < |lines|
        ensures ',' in lines[i]
      {
        assert lines[i][|rows[i].Type|] == ',';
      }
    }
  }

  // ---------------------------------------------------------------------------
  // ProcessData: routing.
  // ---------------------------------------------------------------------------

  /** The lane a row goes to, or none. */
  datatype Lane = FileLane | ConsoleLane | NoLane

  /** A row with a null or empty Type is skipped: it is neither routed nor counted. */
  predicate Counted(row: CsvPayload)
  {
    row.Type != ""
  }

  /** The `switch` on the lowercased Type. */
  function LaneOf(queueType: string): Lane
  {
    var lowered := ToLower(queueType);
    if lowered == "file" then FileLane
    else if lowered == "console" then ConsoleLane
    else NoLane
  }

  /** Two strings are equal up to the case of their ASCII letters. */
  predicate EqualsIgnoringCase(a: string, b: string)
  {
    |a| == |b| && forall i :: 0 <= i < |a| ==> ToLowerChar(a[i]) == ToLowerChar(b[i])
  }

  /** Routing ignores case, and only case: a Type goes to the file lane exactly when it is
      "file" in any mix of upper and lower case, and likewise for "console". */
  lemma LaneOfIgnoresCase(queueType: string)
    ensures LaneOf(queueType) == FileLane <==> EqualsIgnoringCase(queueType, "file")
    ensures LaneOf(queueType) == ConsoleLane <==> EqualsIgnoringCase(queueType, "console")
  {
    var lowered := ToLower(queueType);
    if EqualsIgnoringCase(queueType, "file") {
      assert forall i :: 0 <= i < 4 ==> ToLowerChar("file"[i]) == "file"[i];
      assert lowered == "file";
    }
    if EqualsIgnoringCase(queueType, "console") {
      assert forall i :: 0 <= i < 7 ==> ToLowerChar("console"[i]) == "console"[i];
      assert lowered == "console";
    }
    if lowered == "file" {
      assert forall i :: 0 <= i < 4 ==> ToLowerChar("file"[i]) == "file"[i] == lowered[i];
    }
    if lowered == "console" {
      assert forall i :: 0 <= i < 7 ==> ToLowerChar("console"[i]) == "console"[i] == lowered[i];
    }
  }

  /** The item a routed row becomes: `new FileQueueModel(Payload)` or `new ConsoleQueueModel(Payload)`. */
  function QueueItemFor(lane: Lane, payload: string): QueueItem
    requires lane != NoLane
  {
    if lane == FileLane then FileQueueModel(payload) else ConsoleQueueModel(payload)
  }

  /** The item a counted row submits to `lane`: one when the row's Type names that lane,
      none otherwise. */
  function Share(row: CsvPayload, lane: Lane): (items: seq<QueueItem>)
    requires lane != NoLane
    ensures |items| <= 1
    ensures items != [] <==> LaneOf(row.Type) == lane
  {
    if LaneOf(row.Type) == lane then [QueueItemFor(lane, row.Payload)] else []
  }

  /** The items submitted to `lane` for `rows`, in row order. */
  function Routed(rows: seq<CsvPayload>, lane: Lane): (items: seq<QueueItem>)
    requires lane != NoLane
    ensures |items| <= |rows|
    ensures forall i :: 0 <= i < |items| ==>
              if lane == FileLane then items[i].FileQueueModel? else items[i].ConsoleQueueModel?
    decreases |rows|
  {
    if rows == [] then []
    else
      var row := rows[|rows| - 1];
      Routed(rows[..|rows| - 1], lane) + (if Counted(row) then Share(row, lane) else [])
  }

  /** Routing keeps CSV order: the items for consecutive blocks of rows are the items for
      the first block followed by the items for the second. */
  lemma {:induction false} RoutedAppend(a: seq<CsvPayload>, b: seq<CsvPayload>, lane: Lane)
    requires lane != NoLane
    ensures Routed(a + b, lane) == Routed(a, lane) + Routed(b, lane)
    decreases |b|
  {
    if b == [] {
      assert a + b == a;
    } else {
      var n := |b| - 1;
      assert (a + b)[..|a + b| - 1] == a + b[..n];
      RoutedAppend(a, b[..n], lane);
    }
  }

  // ---------------------------------------------------------------------------
  // ProcessData: pacing.
  // ---------------------------------------------------------------------------

  /** The number of counted rows among `rows`. */
  function CountCounted(rows: seq<CsvPayload>): nat
    decreases |rows|
  {
    if rows == [] then 0
    else CountCounted(rows[..|rows| - 1]) + (if Counted(rows[|rows| - 1]) then 1 else 0)
  }

  /** Whether ProcessData pauses before the k-th counted row (0-based): after every
      `maxLimit` counted rows, or before every row when the limit is not positive. */
  predicate PauseDue(k: nat, maxLimit: int)
  {
    if maxLimit <= 0 then true else k > 0 && k % maxLimit == 0
  }

  /** The milliseconds ProcessData waits when a pause is due and `elapsed` milliseconds have
      passed since the current window opened: the rest of the second, or nothing. */
  function PauseLength(elapsed: int): (delay: int)
    ensures delay >= 0
    ensures elapsed >= 0 ==> delay <= 1000
    ensures elapsed + delay >= 1000
    ensures delay == 0 <==> elapsed >= 1000
  {
    if elapsed <= 1000 then 1000 - elapsed else 0
  }

  /** The limit ProcessData works with: the `maxLimitToProcessedObjectPerSecond` setting,
      or 10 when it is not set. */
  function MaxLimitToProcessObject(setting: Option<int>): int
  {
    match setting
    case None => 10
    case Some(value) => value
  }

  /** What ProcessData does with one row. */
  datatype Pace = Skipped | Sent | SentAfterPause(delay: int)

  /** The pacing of `rows`, row by row. `elapsedAt(i)` is the clock reading, in milliseconds
      since the current window opened, taken when row `i` is reached. */
  function Pacing(rows: seq<CsvPayload>, maxLimit: int, elapsedAt: nat -> int): (trace: seq<Pace>)
    ensures |trace| == |rows|
    decreases |rows|
  {
    if rows == [] then []
    else
      var n := |rows| - 1;
      Pacing(rows[..n], maxLimit, elapsedAt) +
        [if !Counted(rows[n]) then Skipped
         else if PauseDue(CountCounted(rows[..n]), maxLimit) then SentAfterPause(PauseLength(elapsedAt(n)))
         else Sent]
  }

  /** Row by row: a row with an empty Type is skipped; any other row is sent, after a pause
      exactly when a pause is due before it, counting only the counted rows before it. */
  lemma {:induction false} PacingAt(rows: seq<CsvPayload>, maxLimit: int, elapsedAt: nat -> int, i: nat)
    requires i < |rows|
    ensures Pacing(rows, maxLimit, elapsedAt)[i] ==
              if !Counted(rows[i]) then Skipped
              else if PauseDue(CountCounted(rows[..i]), maxLimit) then SentAfterPause(PauseLength(elapsedAt(i)))
              else Sent
    decreases |rows|
  {
    var n := |rows| - 1;
    if i < n {
      PacingAt(rows[..n], maxLimit, elapsedAt, i);
      assert rows[..n][..i] == rows[..i];
    }
  }

  /** With a positive limit, windows hold exactly `maxLimit` rows: from the start, or from
      one pause, the next pause comes `maxLimit` counted rows later and none in between. */
  lemma PausesAreMaxLimitApart(k: nat, maxLimit: int)
    requires maxLimit >= 1
    requires k == 0 || PauseDue(k, maxLimit)
    ensures PauseDue(k + maxLimit, maxLimit)
    ensures forall j :: k < j < k + maxLimit ==> !PauseDue(j, maxLimit)
  {
    var q := k / maxLimit;
    DivModUnique(k + maxLimit, maxLimit, q + 1, 0);
    forall j | k < j < k + maxLimit
      ensures !PauseDue(j, maxLimit)
    {
      DivModUnique(j, maxLimit, q, j - k);
    }
  }

  /** The value of `recordProcessed` before the k-th counted row: it starts at 1, grows by
      one per counted row and drops back to 1 when it exceeds the limit. */
  function RecordCounter(k: nat, maxLimit: int): int
  {
    if k == 0 then 1 else if maxLimit <= 0 then 2 else (k - 1) % maxLimit + 2
  }

  /** The counter test `recordProcessed > maxLimit` is exactly PauseDue, and the counter's
      next value (reset, then incremented) is the one for the next counted row. */
  lemma RecordCounterStep(k: nat, maxLimit: int)
    ensures (RecordCounter(k, maxLimit) > maxLimit) == PauseDue(k, maxLimit)
    ensures (if RecordCounter(k, maxLimit) > maxLimit then 1 else RecordCounter(k, maxLimit)) + 1 ==
            RecordCounter(k + 1, maxLimit)
  {
    if k > 0 && maxLimit > 0 {
      var q, r := (k - 1) / maxLimit, (k - 1) % maxLimit;
      if r == maxLimit - 1 {
        DivModUnique(k, maxLimit, q + 1, 0);
      } else {
        DivModUnique(k, maxLimit, q, r + 1);
      }
    }
  }

  /** Division with remainder is unique. */
  lemma DivModUnique(n: int, d: int, q: int, r: int)
    requires d > 0 && n == q * d + r && 0 <= r < d
    ensures n % d == r
  {
    var q' := n / d;
    if q != q' {
      MulAtLeast(if q > q' then q - q' else q' - q, d);
      assert false;
    }
  }

  lemma MulAtLeast(a: int, d: int)
    requires a >= 1 && d > 0
    ensures a * d >= d
  {
    assert a * d == (a - 1) * d + d;
  }

  // ---------------------------------------------------------------------------
  // ProcessData and ProcessInput.
  // ---------------------------------------------------------------------------

  /** Extending a prefix of the rows by the next row extends routing, counting and pacing
      by that row's share. */
  lemma PrefixStep(rows: seq<CsvPayload>, i: nat, maxLimit: int, elapsedAt: nat -> int)
    requires i < |rows|
    ensures var row := rows[i];
            && Routed(rows[..i + 1], FileLane) == Routed(rows[..i], FileLane) + (if Counted(row) then Share(row, FileLane) else [])
            && Routed(rows[..i + 1], ConsoleLane) == Routed(rows[..i], ConsoleLane) + (if Counted(row) then Share(row, ConsoleLane) else [])
            && CountCounted(rows[..i + 1]) == CountCounted(rows[..i]) + (if Counted(row) then 1 else 0)
            && Pacing(rows[..i + 1], maxLimit, elapsedAt) == Pacing(rows[..i], maxLimit, elapsedAt) +
                 [if !Counted(row) then Skipped
                  else if PauseDue(CountCounted(rows[..i]), maxLimit) then SentAfterPause(PauseLength(elapsedAt(i)))
                  else Sent]
  {
    assert rows[..i + 1][..i] == rows[..i];
  }

  /** The body of ProcessData's loop for a counted row, the `counted`-th. The rate limit:
      when the counter has passed the limit, wait out the rest of the second (`elapsed`
      milliseconds of it have gone) and restart the counter. Then the `switch`: a file row
      is submitted to the file lane, a console row to the console lane, any other row to
      neither. Finally the row is counted. */
  method ProcessRow(queueProcessor: ProcessorQueue<QueueItem, QueueResponse>, item: CsvPayload,
                    recordProcessed: int, maxLimitToProcessObject: int, elapsed: int, ghost counted: nat)
    returns (pace: Pace, next: int)
    requires queueProcessor.Valid()
    requires recordProcessed == RecordCounter(counted, maxLimitToProcessObject)
    modifies queueProcessor
    ensures queueProcessor.Valid() && fresh(queueProcessor.Repr - old(queueProcessor.Repr))
    ensures Items(queueProcessor.FileSubmitted()) == old(Items(queueProcessor.FileSubmitted())) + Share(item, FileLane)
    ensures Items(queueProcessor.ConsoleSubmitted()) ==
              old(Items(queueProcessor.ConsoleSubmitted())) + Share(item, ConsoleLane)
    ensures old(queueProcessor.fileQueue) <= queueProcessor.fileQueue
    ensures old(queueProcessor.consoleQueue) <= queueProcessor.consoleQueue
    ensures queueProcessor.fileTaken == old(queueProcessor.fileTaken)
    ensures queueProcessor.consoleTaken == old(queueProcessor.consoleTaken)
    ensures pace == if PauseDue(counted, maxLimitToProcessObject) then SentAfterPause(PauseLength(elapsed)) else Sent
    ensures next == RecordCounter(counted + 1, maxLimitToProcessObject)
  {
    RecordCounterStep(counted, maxLimitToProcessObject);
    pace := Sent;
    next := recordProcessed;
    if recordProcessed > maxLimitToProcessObject {
      var totalRemaintime := elapsed;
      var delay := 0;
      if totalRemaintime <= 1000 {
        delay := 1000 - totalRemaintime;
      }
      pace := SentAfterPause(delay);
      next := 1;
    }

    var lowered := ToLower(item.Type);
    if lowered == "file" {
      var _ := queueProcessor.QueueFileItem(FileQueueModel(item.Payload));
    } else if lowered == "console" {
      var _ := queueProcessor.QueueConsoleItem(ConsoleQueueModel(item.Payload));
    }
    next := next + 1;
  }

  lemma Reassociate<X>(a: seq<X>, b: seq<X>, c: seq<X>)
    ensures (a + b) + c == a + (b + c)
  {
  }

  /** ProcessData: goes through the rows in order, skipping those with an empty Type, pausing
      when the counter passes the limit, and submitting each file row to the file lane and
      each console row to the console lane. The returned tasks are not awaited. */
  method ProcessData(queueProcessor: ProcessorQueue<QueueItem, QueueResponse>, payloads: seq<CsvPayload>,
                     maxLimitToProcessObject: int, elapsedAt: nat -> int)
    returns (pacing: seq<Pace>)
    requires queueProcessor.Valid()
    modifies queueProcessor
    ensures queueProcessor.Valid() && fresh(queueProcessor.Repr - old(queueProcessor.Repr))
    ensures Items(queueProcessor.FileSubmitted()) ==
              old(Items(queueProcessor.FileSubmitted())) + Routed(payloads, FileLane)
    ensures Items(queueProcessor.ConsoleSubmitted()) ==
              old(Items(queueProcessor.ConsoleSubmitted())) + Routed(payloads, ConsoleLane)
    ensures old(queueProcessor.fileQueue) <= queueProcessor.fileQueue
    ensures old(queueProcessor.consoleQueue) <= queueProcessor.consoleQueue
    ensures queueProcessor.fileTaken == old(queueProcessor.fileTaken)
    ensures queueProcessor.consoleTaken == old(queueProcessor.consoleTaken)
    ensures pacing == Pacing(payloads, maxLimitToProcessObject, elapsedAt)
  {
    ghost var fileBefore := Items(queueProcessor.FileSubmitted());
    ghost var consoleBefore := Items(queueProcessor.ConsoleSubmitted());
    ghost var fileTakenBefore, consoleTakenBefore := queueProcessor.fileTaken, queueProcessor.consoleTaken;
    ghost var fileQueueBefore, consoleQueueBefore := queueProcessor.fileQueue, queueProcessor.consoleQueue;
    ghost var fileSent, consoleSent := [], [];
    ghost var counted: nat := 0;
    var recordProcessed := 1;
    pacing := [];
    for i := 0 to |payloads|
      invariant queueProcessor.Valid() && fresh(queueProcessor.Repr - old(queueProcessor.Repr))
      invariant counted == CountCounted(payloads[..i])
      invariant recordProcessed == RecordCounter(counted, maxLimitToProcessObject)
      invariant pacing == Pacing(payloads[..i], maxLimitToProcessObject, elapsedAt)
      invariant fileSent == Routed(payloads[..i], FileLane) && consoleSent == Routed(payloads[..i], ConsoleLane)
      invariant Items(queueProcessor.FileSubmitted()) == fileBefore + fileSent
      invariant Items(queueProcessor.ConsoleSubmitted()) == consoleBefore + consoleSent
      invariant queueProcessor.fileTaken == fileTakenBefore && queueProcessor.consoleTaken == consoleTakenBefore
      invariant fileQueueBefore <= queueProcessor.fileQueue
      invariant consoleQueueBefore <= queueProcessor.consoleQueue
    {
      var item := payloads[i];
      PrefixStep(payloads, i, maxLimitToProcessObject, elapsedAt);
      if item.Type == "" {
        pacing := pacing + [Skipped];
        continue;
      }
      var pace;
      pace, recordProcessed := ProcessRow(queueProcessor, item, recordProcessed, maxLimitToProcessObject,
                                          elapsedAt(i), counted);
      Reassociate(fileBefore, fileSent, Share(item, FileLane));
      Reassociate(consoleBefore, consoleSent, Share(item, ConsoleLane));
      fileSent, consoleSent := fileSent + Share(item, FileLane), consoleSent + Share(item, ConsoleLane);
      counted := counted + 1;
      pacing := pacing + [pace];
    }
    assert payloads[..|payloads|] == payloads;
  }

  /** Whether the user confirms: some answer to the prompt is "y", in any case. */
  predicate Confirmed(answers: seq<string>)
  {
    exists i :: 0 <= i < |answers| && ToLower(answers[i]) == "y"
  }

  /** The prompt of ProcessInput. `answers` are the lines the user types, in order; when they
      run out, ReadLine returns null, `ToLower` on it throws and ProcessInput gives up. Any
      answer other than "y" (in any case) becomes "n" and the prompt is repeated. */
  method Confirm(answers: seq<string>) returns (confirmed: bool)
    ensures confirmed <==> Confirmed(answers)
  {
    if |answers| == 0 {
      return false;
    }
    var read := 1;
    var key := answers[0];
    if ToLower(key) != "y" {
      key := "n";
    }
    assert ToLower("n") == "n";
    while ToLower(key) == "n"
      invariant 1 <= read <= |answers|
      invariant key == "n" || ToLower(key) == "y"
      invariant key == "n" ==> forall i :: 0 <= i < read ==> ToLower(answers[i]) != "y"
      invariant ToLower(key) == "y" ==> ToLower(answers[read - 1]) == "y"
      decreases |answers| - read
    {
      if read == |answers| {
        return false;
      }
      key := answers[read];
      read := read + 1;
      if ToLower(key) != "y" {
        key := "n";
      }
    }
    confirmed := true;
  }

  /** The rows ProcessInput hands to ProcessData: all the rows of the CSV file once the user
      has confirmed, none otherwise. */
  function SentRows(csvFile: Option<seq<string>>, answers: seq<string>): (rows: seq<CsvPayload>)
    ensures Confirmed(answers) ==> rows == GetCsvData(csvFile)
    ensures !Confirmed(answers) ==> rows == []
  {
    if Confirmed(answers) then GetCsvData(csvFile) else []
  }

  /** ProcessInput: reads the rows and, when there are any and the user confirms, hands them
      to ProcessData with the configured limit. */
  method ProcessInput(queueProcessor: ProcessorQueue<QueueItem, QueueResponse>, csvFile: Option<seq<string>>,
                      answers: seq<string>, maxLimitSetting: Option<int>, elapsedAt: nat -> int)
    returns (pacing: seq<Pace>)
    requires queueProcessor.Valid()
    modifies queueProcessor
    ensures queueProcessor.Valid() && fresh(queueProcessor.Repr - old(queueProcessor.Repr))
    ensures Items(queueProcessor.FileSubmitted()) ==
              old(Items(queueProcessor.FileSubmitted())) + Routed(SentRows(csvFile, answers), FileLane)
    ensures Items(queueProcessor.ConsoleSubmitted()) ==
              old(Items(queueProcessor.ConsoleSubmitted())) + Routed(SentRows(csvFile, answers), ConsoleLane)
    ensures old(queueProcessor.fileQueue) <= queueProcessor.fileQueue
    ensures old(queueProcessor.consoleQueue) <= queueProcessor.consoleQueue
    ensures queueProcessor.fileTaken == old(queueProcessor.fileTaken)
    ensures queueProcessor.consoleTaken == old(queueProcessor.consoleTaken)
    ensures pacing == Pacing(SentRows(csvFile, answers), MaxLimitToProcessObject(maxLimitSetting), elapsedAt)
    ensures maxLimitSetting.None? ==> pacing == Pacing(SentRows(csvFile, answers), 10, elapsedAt)
    ensures maxLimitSetting.Some? ==> pacing == Pacing(SentRows(csvFile, answers), maxLimitSetting.value, elapsedAt)
  {
    var payloads := GetCsvData(csvFile);
    pacing := [];
    if |payloads| > 0 {
      var confirmed := Confirm(answers);
      if confirmed {
        pacing := ProcessData(queueProcessor, payloads, MaxLimitToProcessObject(maxLimitSetting), elapsedAt);
      }
    }
  }

  // ---------------------------------------------------------------------------
  // The processing function: ProcessQueueItem, ProcessFile, ProcessConsole.
  // ---------------------------------------------------------------------------

  /** The program's observable output: the chunks appended to the output file and the
      lines written to the console, oldest first. */
  datatype Output = Output(file: seq<string>, console: seq<string>)

  /** ProcessFile: appends the message and a newline to the output file unless the message
      is empty. An exception from the append (`appendFault`) is written to the console and
      swallowed; the response is returned either way. */
  function ProcessFile(message: string, output: Output, appendFault: Option<Exception>): (r: (QueueResponse, Output))
    ensures r.0 == FileQueueResponse
    ensures output.file <= r.1.file && |r.1.file| <= |output.file| + 1
    ensures output.console <= r.1.console
    ensures |r.1.file| == |output.file| + 1 <==> message != "" && appendFault.None?
    ensures |r.1.file| == |output.file| + 1 ==> r.1.file[|output.file|] == message + NewLine
    ensures message != "" && appendFault.Some? ==> r.1.console == output.console + [appendFault.value.description]
    ensures message == "" || appendFault.None? ==> r.1.console == output.console
  {
    if message == "" then (FileQueueResponse, output)
    else
      match appendFault
      case None => (FileQueueResponse, output.(file := output.file + [message + NewLine]))
      case Some(ex) => (FileQueueResponse, output.(console := output.console + [ex.description]))
  }

  /** ProcessConsole: writes the message to the console. A null item (`None`) throws when its
      message is read; the exception is written to the console and swallowed. */
  function ProcessConsole(consoleItem: Option<string>, output: Output): (r: (QueueResponse, Output))
    ensures r.0 == ConsoleQueueResponse
    ensures r.1.file == output.file
    ensures |r.1.console| == |output.console| + 1 && output.console <= r.1.console
    ensures consoleItem.Some? ==> r.1.console[|output.console|] == consoleItem.value
    ensures consoleItem.None? ==> r.1.console[|output.console|] == NullReference.description
  {
    match consoleItem
    case Some(message) => (ConsoleQueueResponse, output.(console := output.console + [message]))
    case None => (ConsoleQueueResponse, output.(console := output.console + [NullReference.description]))
  }

  /** ProcessQueueItem: a FileQueueModel goes to ProcessFile; anything else is cast to
      ConsoleQueueModel (null when it is not one) and goes to ProcessConsole. */
  function ProcessQueueItem(queueItem: QueueItem, output: Output, appendFault: Option<Exception>)
    : (r: (QueueResponse, Output))
    ensures r.0 == FileQueueResponse <==> queueItem.FileQueueModel?
    ensures !queueItem.FileQueueModel? ==> r.1.file == output.file
    ensures output.file <= r.1.file && output.console <= r.1.console
    ensures queueItem.FileQueueModel? ==>
              r.1.file == output.file + (if queueItem.message != "" && appendFault.None?
                                         then [queueItem.message + NewLine] else [])
    ensures queueItem.ConsoleQueueModel? ==> r.1 == output.(console := output.console + [queueItem.message])
    ensures queueItem.OtherQueueItem? ==> r.1 == output.(console := output.console + [NullReference.description])
  {
    match queueItem
    case FileQueueModel(message) => ProcessFile(message, output, appendFault)
    case ConsoleQueueModel(message) => ProcessConsole(Some(message), output)
    case OtherQueueItem => ProcessConsole(None, output)
  }

  /** The response ProcessQueueItem gives for an item, whatever the output and the faults. */
  function ResponseFor(queueItem: QueueItem): QueueResponse
  {
    if queueItem.FileQueueModel? then FileQueueResponse else ConsoleQueueResponse
  }

  /** Processor(): the function the program's queue is built with. Both handlers catch every
      exception, so it always returns normally. */
  function Processor(): QueueItem -> Result<QueueResponse>
  {
    queueItem => Ok(ResponseFor(queueItem))
  }

  /** The queue's function is ProcessQueueItem's response, never an exception, whatever state
      the output is in and whether the file append fails. */
  lemma ProcessorIsProcessQueueItem(queueItem: QueueItem, output: Output, appendFault: Option<Exception>)
    ensures Processor()(queueItem) == Ok(ProcessQueueItem(queueItem, output, appendFault).0)
    ensures Processor()(queueItem).Ok?
  {
  }

  /** In the program's queue every task a worker has taken is resolved, with the response of
      its item's kind; no task ever fails. */
  lemma ProgramTasksResolve(queueProcessor: ProcessorQueue<QueueItem, QueueResponse>)
    requires queueProcessor.Valid() && queueProcessor.processFunction == Processor()
    ensures forall t :: t in queueProcessor.fileTaken + queueProcessor.consoleTaken ==>
              t.completionSource.state == Resolved(ResponseFor(t.item))
  {
  }

  // ---------------------------------------------------------------------------
  // What the handlers write, lane by lane.
  // ---------------------------------------------------------------------------

  /** A worker handling `items` in order; `faults[i]` is the exception the file append
      throws for item i, if any. */
  function HandleAll(items: seq<QueueItem>, faults: seq<Option<Exception>>, output: Output): Output
    requires |faults| == |items|
    decreases |items|
  {
    if items == [] then output
    else HandleAll(items[1..], faults[1..], ProcessQueueItem(items[0], output, faults[0]).1)
  }

  /** The chunks the file handler appends for `items`: the message and a newline of each
      file item with a non-empty message whose append did not fail, in order. */
  function AppendedChunks(items: seq<QueueItem>, faults: seq<Option<Exception>>): seq<string>
    requires |faults| == |items|
    decreases |items|
  {
    if items == [] then []
    else
      (if items[0].FileQueueModel? && items[0].message != "" && faults[0].None?
       then [items[0].message + NewLine] else []) +
        AppendedChunks(items[1..], faults[1..])
  }

  /** Handling items in order appends exactly their chunks to the output file, in the
      order the items came: console items, empty messages and failed appends add nothing
      to it. */
  lemma {:induction false} HandleAllAppendsChunks(items: seq<QueueItem>, faults: seq<Option<Exception>>,
                                                  output: Output)
    requires |faults| == |items|
    ensures HandleAll(items, faults, output).file == output.file + AppendedChunks(items, faults)
    decreases |items|
  {
    if items != [] {
      var next := ProcessQueueItem(items[0], output, faults[0]).1;
      HandleAllAppendsChunks(items[1..], faults[1..], next);
    }
  }

  /** Items with no file item among them have no chunks. */
  lemma {:induction false} NoFileItemsNoChunks(items: seq<QueueItem>, faults: seq<Option<Exception>>)
    requires |faults| == |items|
    requires forall i :: 0 <= i < |items| ==> !items[i].FileQueueModel?
    ensures AppendedChunks(items, faults) == []
    decreases |items|
  {
    if items != [] {
      NoFileItemsNoChunks(items[1..], faults[1..]);
    }
  }

  /** The console lane never writes to the output file, so only the file lane's worker
      appends to it. */
  lemma ConsoleLaneLeavesFile(rows: seq<CsvPayload>, faults: seq<Option<Exception>>, output: Output)
    requires |faults| == |Routed(rows, ConsoleLane)|
    ensures HandleAll(Routed(rows, ConsoleLane), faults, output).file == output.file
  {
    HandleAllAppendsChunks(Routed(rows, ConsoleLane), faults, output);
    NoFileItemsNoChunks(Routed(rows, ConsoleLane), faults);
  }

  /** The console lines a worker writes for `items`: the message of a console item, the
      NullReferenceException text for any other non-file item, and the exception text of
      a file item whose append failed. */
  function ConsoleLines(items: seq<QueueItem>, faults: seq<Option<Exception>>): seq<string>
    requires |faults| == |items|
    decreases |items|
  {
    if items == [] then []
    else
      (match items[0]
       case FileQueueModel(message) =>
         if message != "" && faults[0].Some? then [faults[0].value.description] else []
       case ConsoleQueueModel(message) => [message]
       case OtherQueueItem => [NullReference.description]) +
        ConsoleLines(items[1..], faults[1..])
  }

  /** Handling items in order writes exactly their console lines, in the order the items
      came. */
  lemma {:induction false} HandleAllWritesConsoleLines(items: seq<QueueItem>, faults: seq<Option<Exception>>,
                                                       output: Output)
    requires |faults| == |items|
    ensures HandleAll(items, faults, output).console == output.console + ConsoleLines(items, faults)
    decreases |items|
  {
    if items != [] {
      var next := ProcessQueueItem(items[0], output, faults[0]).1;
      HandleAllWritesConsoleLines(items[1..], faults[1..], next);
    }
  }

  /** For console items alone, the console lines are their messages, one per item, in order. */
  lemma {:induction false} ConsoleItemsPrintMessages(items: seq<QueueItem>, faults: seq<Option<Exception>>)
    requires |faults| == |items|
    requires forall i :: 0 <= i < |items| ==> items[i].ConsoleQueueModel?
    ensures |ConsoleLines(items, faults)| == |items|
    ensures forall i :: 0 <= i < |items| ==> ConsoleLines(items, faults)[i] == items[i].message
    decreases |items|
  {
    if items != [] {
      ConsoleItemsPrintMessages(items[1..], faults[1..]);
    }
  }

  /** The console lane's worker prints the payload of each routed console row, one line per
      item, in CSV order, after whatever the console already held. */
  lemma ConsoleLanePrintsMessages(rows: seq<CsvPayload>, faults: seq<Option<Exception>>, output: Output)
    requires |faults| == |Routed(rows, ConsoleLane)|
    ensures var items := Routed(rows, ConsoleLane);
            var console := HandleAll(items, faults, output).console;
            |console| == |output.console| + |items| && output.console <= console &&
            forall i :: 0 <= i < |items| ==> console[|output.console| + i] == items[i].message
  {
    var items := Routed(rows, ConsoleLane);
    HandleAllWritesConsoleLines(items, faults, output);
    ConsoleItemsPrintMessages(items, faults);
  }
}
