/** Replaying a journal into a fresh book. */
module Replay {
  import opened Types
  import opened Matching
  import opened Invariant
  import opened Bytes
  import opened Crc
  import opened Journal
  import opened JournalIo
  import Book

  /** What a replay produces: nothing if the header cannot be read, and otherwise
      what every command did, why reading stopped, where the good part of the
      journal ends, and the book at the end. */
  datatype Replayed =
    | Refused(status: Status)
    | Done(outcomes: seq<Outcome>, stop: Status, valid: nat, book: seq<Resting>)

  /** The commands run on a book of the recorded capacity. */
  function RunReading(capacity: nat, r: Reading): Replayed {
    var (st, outcomes) := Run(Word32, Initial(capacity), r.commands);
    Done(outcomes, r.status, HEADER_SIZE + r.valid, st.book.bids + st.book.asks)
  }

  function ReplayOf(data: seq<byte>): Replayed {
    match Open(data)
    case NotAJournal(status) => Refused(status)
    case Capacity(capacity) => RunReading(capacity, ReadAll(data[HEADER_SIZE..]))
  }

  // ---------- the replay loop ----------

  /** A reading with more commands in front. */
  function Behind(cs: seq<Command>, n: nat, r: Reading): Reading {
    Reading(cs + r.commands, r.status, n + r.valid)
  }

  lemma ReadAllStep(d: seq<byte>, cs: seq<Command>, n: nat)
    ensures ReadRecord(d).Stop? ==> Behind(cs, n, ReadAll(d)) == Reading(cs, ReadRecord(d).status, n)
    ensures ReadRecord(d).Good? ==>
              && 0 < ReadRecord(d).length <= |d|
              && Behind(cs, n, ReadAll(d))
                 == Behind(cs + [ReadRecord(d).command], n + ReadRecord(d).length, ReadAll(d[ReadRecord(d).length..]))
  {
    hide ReadRecord;
    if ReadRecord(d).Good? {
      WriteReadRecord(d);
      var c, rest := ReadRecord(d).command, ReadAll(d[ReadRecord(d).length..]);
      assert cs + ([c] + rest.commands) == (cs + [c]) + rest.commands;
    }
  }

  /** Replays every command up to the first bad record. */
  method Replay(data: seq<byte>, hash: OrderId -> nat) returns (r: Replayed)
    ensures r == ReplayOf(data)
  {
    hide ReadRecord;
    hide ReadAll;
    hide Step;
    hide Run;
    hide Book.Book.Valid;
    hide TableOk;
    hide Journal.Open;
    var table := MakeTable();
    var reader := new Reader(data, table);
    var header := reader.Open();
    if header.NotAJournal? {
      return Refused(header.status);
    }
    var book := new Book.Book(reader.capacity, hash);
    var outcomes := [];
    ghost var cs := [];
    ghost var d := data[HEADER_SIZE..];
    NoCommands(Initial(reader.capacity));
    ghost var n := 0;
    assert d[0..] == d;
    var next := reader.Next();
    while next.Good?
      invariant book.Valid() && fresh(book.Repr())
      invariant table.Length == 256 && TableOk(table[..]) && reader.table == table && reader.data == data
      invariant table !in book.Repr() && reader !in book.Repr()
      invariant fresh(reader) && header == Capacity(reader.capacity)
      invariant n <= |d| && next == ReadRecord(d[n..])
      invariant reader.pos == HEADER_SIZE + n + (if next.Good? then next.length else 0) <= |data|
      invariant Behind(cs, n, ReadAll(d[n..])) == ReadAll(d)
      invariant (book.model, outcomes) == Run(Word32, Initial(header.capacity), cs)
      decreases |d| - n + (if next.Good? then 1 else 0)
    {
      ReadAllStep(d[n..], cs, n);
      RunAppend(Word32, Initial(header.capacity), cs, next.command);
      var outcome := book.Apply(next.command);
      outcomes := outcomes + [outcome];
      cs := cs + [next.command];
      assert d[n..][next.length..] == d[n + next.length..];
      n := n + next.length;
      assert data[reader.pos..] == d[n..];
      next := reader.Next();
    }
    ReadAllStep(d[n..], cs, n);
    var snapshot := book.Snapshot();
    r := Done(outcomes, next.status, reader.pos, snapshot);
  }

  lemma NoCommands(st: State)
    ensures Run(Word32, st, []) == (st, [])
  {
  }

  // ---------- replay and the live run ----------

  /** A command and its canonical form do the same thing. */
  lemma StepCanonical(w: Width, st: State, c: Command)
    ensures Step(w, st, Canonical(c)) == Step(w, st, c)
  {
  }

  lemma {:induction false} RunCanonical(w: Width, st: State, cs: seq<Command>)
    ensures Run(w, st, CanonicalAll(cs)) == Run(w, st, cs)
    decreases |cs|
  {
    hide Step;
    hide Canonical;
    if cs != [] {
      StepCanonical(w, st, cs[0]);
      assert CanonicalAll(cs)[1..] == CanonicalAll(cs[1..]);
      RunCanonical(w, Step(w, st, cs[0]).0, cs[1..]);
    }
  }

  /** However a journal is cut short, replaying it gives the outcomes and the
      book of running its whole records' commands live; if not even the header is
      whole, nothing is replayed. */
  lemma ReplayIsLivePrefix(capacity: Index, cs: seq<Command>, n: nat)
    requires n <= |Journal.Journal(capacity, cs)|
    ensures
      var k := if n < HEADER_SIZE then 0 else Whole(cs, n - HEADER_SIZE);
      var (st, outcomes) := Run(Word32, Initial(capacity), cs[..k]);
      var end := |Journal.Journal(capacity, cs[..k])|;
      && (end <= n <==> n >= HEADER_SIZE)
      && (k < |cs| && n >= HEADER_SIZE ==> n < |Journal.Journal(capacity, cs[..k + 1])|)
      && ReplayOf(Journal.Journal(capacity, cs)[..n])
         == (if n < HEADER_SIZE then Refused(Truncated)
             else Done(outcomes, if end == n then End else Truncated, end, st.book.bids + st.book.asks))
  {
    hide Open;
    hide ReadAll;
    hide Records;
    hide Run;
    hide Whole;
    hide EncodeHeader;
    var d := Journal.Journal(capacity, cs)[..n];
    if n < HEADER_SIZE {
      TooShort(d);
    } else {
      assert d == EncodeHeader(capacity) + Records(cs)[..n - HEADER_SIZE];
      OpensExactlyHeaders(d, capacity);
      assert d[HEADER_SIZE..] == Records(cs)[..n - HEADER_SIZE];
      ReadCutRecords(cs, n - HEADER_SIZE);
      RunCanonical(Word32, Initial(capacity), cs[..Whole(cs, n - HEADER_SIZE)]);
    }
  }

  lemma TooShort(d: seq<byte>)
    requires |d| < HEADER_SIZE
    ensures Open(d) == NotAJournal(Truncated)
  {
  }

  /** Cutting any journal where replay says its good part ends, and replaying
      again, gives the same outcomes and book, and now a clean end. */
  lemma ReplayAgain(data: seq<byte>)
    requires Open(data).Capacity?
    ensures
      var r := ReplayOf(data);
      r.Done? && HEADER_SIZE <= r.valid <= |data| && ReplayOf(data[..r.valid]) == r.(stop := End)
  {
    hide Open;
    hide ReadAll;
    hide Run;
    hide EncodeHeader;
    var capacity := Open(data).capacity;
    OpensExactlyHeaders(data, capacity);
    var d := data[HEADER_SIZE..];
    var reading := ReadAll(d);
    CutAtValidReadsClean(d);
    var cut := data[..HEADER_SIZE + reading.valid];
    assert cut[HEADER_SIZE..] == d[..reading.valid];
    assert EncodeHeader(capacity) <= cut;
    OpensExactlyHeaders(cut, capacity);
  }

  /** Damage to one record, behind its kind byte and within 32 consecutive bits,
      stops replay in front of it; the commands before it replay as they ran. */
  lemma ReplayStopsAtDamage(capacity: Index, before: seq<Command>, c: Command, after: seq<byte>, damaged: seq<byte>, p: nat)
    requires |damaged| == |Encode(c)| && damaged != Encode(c) && damaged[0] == Encode(c)[0]
    requires DifferWithin32(Bits(Encode(c)), Bits(damaged), p)
    ensures
      var (st, outcomes) := Run(Word32, Initial(capacity), before);
      var journal := Journal.Journal(capacity, before);
      ReplayOf(journal + damaged + after) == Done(outcomes, BadChecksum, |journal|, st.book.bids + st.book.asks)
  {
    hide Open;
    hide ReadAll;
    hide ReadRecord;
    hide Records;
    hide Run;
    hide EncodeHeader;
    hide Encode;
    hide Bits;
    var rest := damaged + after;
    var good := Encode(c) + after;
    ReadWrittenRecord(c, after);
    assert good[..|Encode(c)|] == Encode(c) && rest[..|Encode(c)|] == damaged;
    DamagedRecord(good, rest, p);
    DamageStopsThere(before, rest);
    var d := Journal.Journal(capacity, before) + damaged + after;
    assert d == EncodeHeader(capacity) + (Records(before) + rest);
    OpensExactlyHeaders(d, capacity);
    assert d[HEADER_SIZE..] == Records(before) + rest;
    RunCanonical(Word32, Initial(capacity), before);
  }
}
