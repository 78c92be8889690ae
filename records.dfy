/** `parse_csv` and `parse_file` (main.rs, lines 69-121), over records the CSV reader has
    already split into fields. */
module Records {
  import opened Wrappers
  import opened Text
  import opened Types
  import opened Amount
  import opened Selection

  /** One item of the reader's record stream: the fields of a record, or a read error. */
  datatype RecordRead = Fields(fields: seq<string>) | Unreadable

  /** What the CSV reader makes of the file's text: whether the header row could be read, and
      the records after it. */
  datatype CsvTable = CsvTable(headerReadable: bool, records: seq<RecordRead>)

  /** The outcome of `fs::read_to_string`, with the content given as the reader sees it. */
  datatype FileRead = ReadFailed | Content(table: CsvTable)

  datatype ParseError = IoFailure | HeaderUnreadable | RecordUnreadable | BadAmount | PdfUnsupported

  /** The header test of lines 105-106. */
  predicate LooksLikeHeader(description: string)
  {
    Contains(Lower(description), "description") || Contains(Lower(description), "transaction")
  }

  function Abs(x: real): real { if x < 0.0 then -x else x }

  /** A record that makes the whole parse fail. */
  predicate Faulty(r: RecordRead)
  {
    r.Unreadable? || (|r.fields| >= 3 && ParseAmount(r.fields[2]).Err?)
  }

  /** A record that yields a transaction. */
  predicate Qualifies(r: RecordRead)
  {
    && r.Fields? && |r.fields| >= 3
    && ParseAmount(r.fields[2]).Ok?
    && !LooksLikeHeader(r.fields[1]) && ParseAmount(r.fields[2]).value != 0.0
  }

  function ToTransaction(r: RecordRead): (t: Transaction)
    requires Qualifies(r)
    ensures t.date == r.fields[0] && t.description == r.fields[1] && t.category == None
    ensures t.amount > 0.0 && (t.amount == ParseAmount(r.fields[2]).value || t.amount == -ParseAmount(r.fields[2]).value)
  {
    Transaction(r.fields[0], r.fields[1], Abs(ParseAmount(r.fields[2]).value), None)
  }

  /** What one record does to the outcome of the records after it: an unreadable record or
      a bad amount is an error, a short record is passed over, and a qualifying record is put in
      front of the rest. */
  function Step(r: RecordRead, rest: Result<seq<Transaction>, ParseError>): Result<seq<Transaction>, ParseError>
  {
    if r.Unreadable? then Err(RecordUnreadable)
    else if |r.fields| < 3 then rest
    else if ParseAmount(r.fields[2]).Err? then Err(BadAmount)
    else if rest.Err? || !Qualifies(r) then rest
    else Ok([ToTransaction(r)] + rest.value)
  }

  /** The loop of lines 92-118 read as a recursion: records are taken in order, and the first
      faulty one ends the parse with its error. */
  function ReadRecords(rs: seq<RecordRead>): Result<seq<Transaction>, ParseError>
  {
    if rs == [] then Ok([]) else Step(rs[0], ReadRecords(rs[1..]))
  }

  /** What `parse_csv` returns for a table. */
  function ReadTable(t: CsvTable): Result<seq<Transaction>, ParseError>
  {
    if t.headerReadable then ReadRecords(t.records) else Err(HeaderUnreadable)
  }

  /** `Ok(acc ++ rest)` when the rest parses, the rest's error otherwise. */
  function Prepend(acc: seq<Transaction>, rest: Result<seq<Transaction>, ParseError>): Result<seq<Transaction>, ParseError>
  {
    if rest.Ok? then Ok(acc + rest.value) else rest
  }

  /** `parse_csv`: pushes a transaction for each qualifying record and stops at the first
      faulty one. */
  method ParseCsv(table: CsvTable) returns (r: Result<seq<Transaction>, ParseError>)
    ensures r == ReadTable(table)
  {
    if !table.headerReadable {
      return Err(HeaderUnreadable);
    }
    var rs := table.records;
    var transactions: seq<Transaction> := [];
    var i := 0;
    assert rs[0..] == rs;
    assert ReadRecords(rs).Ok? ==> [] + ReadRecords(rs).value == ReadRecords(rs).value;
    while i < |rs|
      invariant 0 <= i <= |rs|
      invariant ReadRecords(rs) == Prepend(transactions, ReadRecords(rs[i..]))
    {
      var record := rs[i];
      ReadStep(rs, i, transactions);
      if record.Unreadable? {
        return Err(RecordUnreadable);
      }
      if |record.fields| >= 3 {
        var amount := ParseAmount(record.fields[2]);
        if amount.Err? {
          return Err(BadAmount);
        }
        if LooksLikeHeader(record.fields[1]) || amount.value == 0.0 {
          assert !Qualifies(record);
          i := i + 1;
          continue;
        }
        assert Qualifies(record);
        transactions := transactions + [ToTransaction(record)];
      }
      i := i + 1;
    }
    assert rs[i..] == [];
    assert transactions + [] == transactions;
    r := Ok(transactions);
  }

  /** One turn of the loop in `parse_csv`, on the records from `i` on. */
  lemma ReadStep(rs: seq<RecordRead>, i: nat, acc: seq<Transaction>)
    requires i < |rs|
    ensures var r, here, next := rs[i], Prepend(acc, ReadRecords(rs[i..])), Prepend(acc, ReadRecords(rs[i + 1..]));
            && (r.Unreadable? ==> here == Err(RecordUnreadable))
            && (r.Fields? && |r.fields| < 3 ==> here == next)
            && (r.Fields? && |r.fields| >= 3 && ParseAmount(r.fields[2]).Err? ==> here == Err(BadAmount))
            && (r.Fields? && |r.fields| >= 3 && ParseAmount(r.fields[2]).Ok? && !Qualifies(r) ==> here == next)
            && (Qualifies(r) ==> here == Prepend(acc + [ToTransaction(r)], ReadRecords(rs[i + 1..])))
  {
    assert rs[i..][1..] == rs[i + 1..];
    assert rs[i..][0] == rs[i];
    StepCases(rs[i], acc, ReadRecords(rs[i + 1..]));
  }

  /** The cases of Step, seen from a loop that has already collected `acc`. */
  lemma StepCases(r: RecordRead, acc: seq<Transaction>, rest: Result<seq<Transaction>, ParseError>)
    ensures var here, next := Prepend(acc, Step(r, rest)), Prepend(acc, rest);
            && (r.Unreadable? ==> here == Err(RecordUnreadable))
            && (r.Fields? && |r.fields| < 3 ==> here == next)
            && (r.Fields? && |r.fields| >= 3 && ParseAmount(r.fields[2]).Err? ==> here == Err(BadAmount))
            && (r.Fields? && |r.fields| >= 3 && ParseAmount(r.fields[2]).Ok? && !Qualifies(r) ==> here == next)
            && (Qualifies(r) ==> here == Prepend(acc + [ToTransaction(r)], rest))
  {
    if Qualifies(r) && rest.Ok? {
      assert acc + ([ToTransaction(r)] + rest.value) == (acc + [ToTransaction(r)]) + rest.value;
    }
  }

  /** `parse_file`: the read comes first; then ".csv" is parsed, ".pdf" is refused, and any
      other path gives no transactions. */
  method ParseFile(path: string, read: FileRead) returns (r: Result<seq<Transaction>, ParseError>)
    ensures r == FileOutcome(path, read)
  {
    if read.ReadFailed? {
      return Err(IoFailure);
    }
    var transactions: seq<Transaction> := [];
    if EndsWith(path, ".csv") {
      r := ParseCsv(read.table);
      if r.Err? {
        return r;
      }
      transactions := r.value;
    } else if EndsWith(path, ".pdf") {
      return Err(PdfUnsupported);
    }
    r := Ok(transactions);
  }

  function FileOutcome(path: string, read: FileRead): Result<seq<Transaction>, ParseError>
  {
    match read
    case ReadFailed => Err(IoFailure)
    case Content(table) =>
      if EndsWith(path, ".csv") then ReadTable(table)
      else if EndsWith(path, ".pdf") then Err(PdfUnsupported)
      else Ok([])
  }

  /** What a file yields: a read failure is an I/O error; a ".csv" path fails exactly when the
      header or some record is faulty and otherwise gives the qualifying records; a ".pdf" path is
      refused; any other path gives no transactions. Every transaction delivered has a positive
      amount and no category. */
  lemma FileOutcomeSpec(path: string, read: FileRead)
    ensures read.ReadFailed? ==> FileOutcome(path, read) == Err(IoFailure)
    ensures read.Content? && EndsWith(path, ".csv") ==>
              (FileOutcome(path, read).Err? <==>
                 !read.table.headerReadable ||
                 exists i :: 0 <= i < |read.table.records| && Faulty(read.table.records[i]))
    ensures read.Content? && EndsWith(path, ".csv") && FileOutcome(path, read).Ok? ==>
              FileOutcome(path, read).value == Kept(read.table.records)
    ensures read.Content? && !EndsWith(path, ".csv") && EndsWith(path, ".pdf") ==>
              FileOutcome(path, read) == Err(PdfUnsupported)
    ensures read.Content? && !EndsWith(path, ".csv") && !EndsWith(path, ".pdf") ==>
              FileOutcome(path, read) == Ok([])
    ensures FileOutcome(path, read).Ok? ==>
              forall j :: 0 <= j < |FileOutcome(path, read).value| ==>
                FileOutcome(path, read).value[j].amount > 0.0 &&
                FileOutcome(path, read).value[j].category == None
  {
    if read.Content? {
      ReadRecordsSpec(read.table.records);
      KeptTransactions(read.table.records);
    }
  }

  /** The transaction a record yields, if it qualifies. */
  function Pick(r: RecordRead): Option<Transaction>
  {
    if Qualifies(r) then Some(ToTransaction(r)) else None
  }

  /** The reference: the qualifying records, in order, made into transactions. */
  function Kept(rs: seq<RecordRead>): seq<Transaction>
  {
    Select(rs, Pick)
  }

  /** The parse fails exactly when some record is faulty, even a record that the header or
      zero-amount test would have skipped; otherwise it yields the qualifying records. */
  lemma {:induction false} ReadRecordsSpec(rs: seq<RecordRead>)
    ensures ReadRecords(rs).Err? <==> exists i :: 0 <= i < |rs| && Faulty(rs[i])
    ensures ReadRecords(rs).Ok? ==> ReadRecords(rs).value == Kept(rs)
  {
    if rs != [] {
      ReadRecordsSpec(rs[1..]);
      assert forall i :: 1 <= i < |rs| ==> rs[i] == rs[1..][i - 1];
      if exists i :: 0 <= i < |rs[1..]| && Faulty(rs[1..][i]) {
        var i :| 0 <= i < |rs[1..]| && Faulty(rs[1..][i]);
        assert Faulty(rs[i + 1]);
      }
    }
  }

  /** Every kept transaction has a positive amount, no category yet, and a description that
      does not look like a header. */
  lemma KeptTransactions(rs: seq<RecordRead>)
    ensures forall j :: 0 <= j < |Kept(rs)| ==>
              Kept(rs)[j].amount > 0.0 && Kept(rs)[j].category == None
              && !LooksLikeHeader(Kept(rs)[j].description)
  {
    KeptInOrder(rs, 0);
    assert rs[0..] == rs;
  }

  /** The kept transactions are the qualifying records, in input order, with date and
      description unchanged: the j-th comes from the record at the j-th qualifying position,
      and every qualifying position is used. */
  lemma KeptInOrder(rs: seq<RecordRead>, start: nat)
    requires start <= |rs|
    ensures var ps := PositionsFrom(rs, Pick, start);
            && |ps| == |Kept(rs[start..])|
            && (forall j, k :: 0 <= j < k < |ps| ==> ps[j] < ps[k])
            && (forall j :: 0 <= j < |ps| ==>
                  start <= ps[j] < |rs| && Qualifies(rs[ps[j]])
                  && Kept(rs[start..])[j] == ToTransaction(rs[ps[j]]))
            && (forall i :: start <= i < |rs| && Qualifies(rs[i]) ==> i in ps)
  {
    PositionsIncrease(rs, Pick, start);
    SelectAtPositions(rs, Pick, start);
    PositionsComplete(rs, Pick, start);
  }
}
