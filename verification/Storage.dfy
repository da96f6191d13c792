/** The Raft log kept in memory (raft/mem_storage.cpp, contract in raft/raft_storage.hpp). */
module Storage {
  import opened Wire

  /** What the storage holds besides the journal file. */
  datatype Log = Log(entries: seq<Entry>, uncommit: EntryInfo, commit: EntryInfo)

  const EMPTY := Log([], EntryInfo(0, 0), EntryInfo(0, 0))

  /** Entries are numbered from `first` on without a gap. */
  predicate Contiguous(entries: seq<Entry>, first: int) {
    forall i :: 0 <= i < |entries| ==> entries[i].info.index == first + i
  }

  function InfoAt(entries: seq<Entry>, index: nat): EntryInfo {
    if index == 0 || index > |entries| then EntryInfo(0, 0) else entries[index - 1].info
  }

  /** Entry i has index i + 1, and both marks are those of entries of the log. */
  predicate Valid(log: Log) {
    && Contiguous(log.entries, 1)
    && log.uncommit == InfoAt(log.entries, |log.entries|)
    && log.commit.index <= |log.entries|
    && log.commit == InfoAt(log.entries, log.commit.index)
  }

  // ---------------------------------------------------------------- the operations

  /** The batch replaces everything from its first index on. */
  function Appended(log: Log, batch: seq<Entry>): Log
    requires batch != [] ==> 0 < batch[0].info.index
    requires batch != [] && batch[0].info.index <= log.uncommit.index ==> batch[0].info.index - 1 <= |log.entries|
  {
    if batch == [] then log
    else
      var first := batch[0].info.index;
      var kept := if log.uncommit.index >= first then log.entries[..first - 1] else log.entries;
      Log(kept + batch, batch[|batch| - 1].info, log.commit)
  }

  function Committed(log: Log, index: nat): Log {
    var upTo := if log.uncommit.index < index then log.uncommit.index else index;
    if log.commit.index == upTo then log else log.(commit := InfoAt(log.entries, upTo))
  }

  function Since(log: Log, index: nat): seq<Entry> {
    if index >= |log.entries| then [] else log.entries[index..]
  }

  class MemStorage {
    var entries: seq<Entry>
    var uncommit: EntryInfo
    var commit: EntryInfo

    ghost function State(): Log
      reads this
    {
      Log(entries, uncommit, commit)
    }

    constructor ()
      ensures State() == EMPTY
    {
      entries, uncommit, commit := [], EntryInfo(0, 0), EntryInfo(0, 0);
    }

    method Append(batch: seq<Entry>) returns (last: EntryInfo)
      requires Valid(State()) && (batch != [] ==> 0 < batch[0].info.index)
      modifies this`entries, this`uncommit
      ensures State() == Appended(old(State()), batch) && last == uncommit
    {
      if batch == [] {
        return uncommit;
      }
      if uncommit.index >= batch[0].info.index {
        assert entries[uncommit.index - 1].info.index == uncommit.index;
        entries := entries[..batch[0].info.index - 1];
      }
      entries := entries + batch;
      uncommit := batch[|batch| - 1].info;
      return uncommit;
    }

    method CommitUntil(index: nat) returns (last: EntryInfo)
      requires Valid(State())
      modifies this`commit
      ensures State() == Committed(old(State()), index) && last == commit
    {
      var upTo := if uncommit.index < index then uncommit.index else index;
      if commit.index != upTo {
        commit := GetEntryInfo(upTo);
      }
      return commit;
    }

    method EntriesSince(index: nat) returns (batch: seq<Entry>)
      requires Valid(State())
      ensures batch == Since(State(), index)
    {
      if index >= |entries| {
        return [];
      }
      assert entries[index].info.index == index + 1;
      return entries[index..];
    }

    method GetEntryInfo(index: nat) returns (info: EntryInfo)
      requires Valid(State())
      ensures info == InfoAt(entries, index)
      ensures if 1 <= index <= |entries| then info == entries[index - 1].info && info.index == index else info == EntryInfo(0, 0)
    {
      if index == 0 || index > |entries| {
        return EntryInfo(0, 0);
      }
      assert entries[index - 1].info.index == index;
      return entries[index - 1].info;
    }
  }

  // ---------------------------------------------------------------- the storage contract

  /** A batch without gaps that starts behind the committed entries and at most one past the
      end of the log. */
  predicate Appendable(log: Log, batch: seq<Entry>) {
    batch == [] ||
    (&& Contiguous(batch, batch[0].info.index)
     && log.commit.index < batch[0].info.index <= |log.entries| + 1)
  }

  /** Zeros are what stands for an entry that is not in the log, and nothing else does; an entry of
      the log is found under its own index. */
  lemma InfoIsZeroOutside(log: Log, index: nat)
    requires Valid(log)
    ensures InfoAt(log.entries, index) == EntryInfo(0, 0) <==> !(1 <= index <= |log.entries|)
    ensures forall e :: e in log.entries ==> InfoAt(log.entries, e.info.index) == e.info
  {
    forall e | e in log.entries
      ensures InfoAt(log.entries, e.info.index) == e.info
    {
      var i :| 0 <= i < |log.entries| && log.entries[i] == e;
      assert e.info.index == 1 + i;
    }
  }

  /** The first n entries of the two logs are the same. */
  predicate SameUpTo(a: Log, b: Log, n: nat) {
    n <= |a.entries| && n <= |b.entries| && a.entries[..n] == b.entries[..n]
  }

  /** An append keeps the log in order and its committed entries in place if the batch obeys
      the contract. */
  lemma AppendKeepsCommitted(log: Log, batch: seq<Entry>)
    requires Valid(log) && Appendable(log, batch)
    ensures Valid(Appended(log, batch))
    ensures SameUpTo(log, Appended(log, batch), log.commit.index)
    ensures Appended(log, batch).commit == log.commit
  {
  }

  /** The batch has no gap and leaves none, and repeats the committed entries it covers, down
      to the last committed one. */
  predicate Compatible(log: Log, batch: seq<Entry>)
    requires batch != []
  {
    var first := batch[0].info.index;
    && Contiguous(batch, first)
    && 0 < first <= |log.entries| + 1
    && log.commit.index < first + |batch|
    && |log.entries| >= log.commit.index
    && forall i :: 0 <= i < |batch| && first + i <= log.commit.index ==> batch[i] == log.entries[first + i - 1]
  }

  lemma CompatibleKeepsCommitted(log: Log, batch: seq<Entry>)
    requires Valid(log) && batch != [] && Compatible(log, batch)
    ensures Valid(Appended(log, batch)) && SameUpTo(log, Appended(log, batch), log.commit.index)
  {
  }

  /** Exactly the compatible batches keep the log in order and its committed entries in
      place; in particular those of the contract. */
  lemma AppendKeepsIffCompatible(log: Log, batch: seq<Entry>)
    requires Valid(log) && batch != [] && 0 < batch[0].info.index
    ensures Valid(Appended(log, batch)) && SameUpTo(log, Appended(log, batch), log.commit.index) <==>
            Compatible(log, batch)
    ensures Appendable(log, batch) ==> Compatible(log, batch)
  {
    if Compatible(log, batch) { CompatibleKeepsCommitted(log, batch); }
    if Valid(Appended(log, batch)) && SameUpTo(log, Appended(log, batch), log.commit.index) {
      KeptIsCompatible(log, batch, Appended(log, batch));
    }
  }

  lemma KeptIsCompatible(log: Log, batch: seq<Entry>, log': Log)
    requires Valid(log) && batch != [] && 0 < batch[0].info.index && log' == Appended(log, batch)
    requires Valid(log') && SameUpTo(log, log', log.commit.index)
    ensures Compatible(log, batch)
  {
    var c, n := log.commit.index, |log'.entries| - |batch|;
    assert log'.entries[n..] == batch;
    forall i | 0 <= i < |batch|
      ensures batch[i].info.index == n + 1 + i
      ensures n + 1 + i <= c ==> batch[i] == log.entries[n + i]
    {
      assert log'.entries[n + i] == batch[i];
      if n + 1 + i <= c { assert log'.entries[..c][n + i] == log.entries[..c][n + i]; }
    }
    assert batch[0].info.index == n + 1;
  }

  lemma CommitKeepsCommitted(log: Log, index: nat)
    requires Valid(log)
    ensures Valid(Committed(log, index)) && Committed(log, index).entries == log.entries
    ensures Committed(log, index).commit.index == if index < |log.entries| then index else |log.entries|
  {
  }

  // ---------------------------------------------------------------- runs

  datatype Step = Append(batch: seq<Entry>) | CommitUntil(index: nat)

  predicate Enabled(log: Log, step: Step) {
    match step
    case Append(batch) => Appendable(log, batch)
    case CommitUntil(index) => log.commit.index <= index
  }

  function Next(log: Log, step: Step): Log
    requires Valid(log) && Enabled(log, step)
  {
    match step
    case Append(batch) => Appended(log, batch)
    case CommitUntil(index) => Committed(log, index)
  }

  ghost predicate Runs(log: Log, steps: seq<Step>, log': Log)
    decreases |steps|
  {
    if steps == [] then log == log'
    else Valid(log) && Enabled(log, steps[0]) && Runs(Next(log, steps[0]), steps[1..], log')
  }

  /** Once committed, entries are immutable: they are the same at every later moment of every
      run that obeys the contract, the commit mark never goes back, and the log stays in
      order so that none of the exits is ever taken. */
  lemma {:induction false} CommittedIsForever(log: Log, steps: seq<Step>, log': Log)
    requires Valid(log) && Runs(log, steps, log')
    ensures Valid(log') && log.commit.index <= log'.commit.index && SameUpTo(log, log', log.commit.index)
    decreases |steps|
  {
    if steps != [] {
      var next := Next(log, steps[0]);
      match steps[0] {
        case Append(batch) => AppendKeepsCommitted(log, batch);
        case CommitUntil(index) => CommitKeepsCommitted(log, index);
      }
      CommittedIsForever(next, steps[1..], log');
      var c := log.commit.index;
      assert log'.entries[..c] == log'.entries[..next.commit.index][..c];
      assert next.entries[..c] == next.entries[..next.commit.index][..c];
    }
  }

  // ---------------------------------------------------------------- replication

  /** Sending the entries since a point up to which two logs agree makes them equal, unless
      there is nothing to send; then they are equal only if they were before. */
  lemma SinceMakesEqual(from: Log, to: Log, k: nat)
    requires Valid(from) && Valid(to) && SameUpTo(from, to, k)
    ensures Appended(to, Since(from, k)).entries == from.entries <==> k < |from.entries| || |to.entries| == k
  {
    if k < |from.entries| {
      assert from.entries[..k] + from.entries[k..] == from.entries;
      assert k == |to.entries| ==> to.entries[..k] == to.entries;
    } else if |to.entries| == k {
      assert to.entries == to.entries[..k] && from.entries == from.entries[..k];
    }
  }

  /** It obeys the contract of the receiver, and so keeps what the receiver has committed, if
      the receiver has committed no more than the common part. */
  lemma SinceKeepsCommitted(from: Log, to: Log, k: nat)
    requires Valid(from) && Valid(to) && SameUpTo(from, to, k) && to.commit.index <= k
    ensures Appendable(to, Since(from, k))
    ensures var to' := Appended(to, Since(from, k)); Valid(to') && SameUpTo(to, to', to.commit.index)
  {
    AppendKeepsCommitted(to, Since(from, k));
  }

  /** The same over the wire: the request is printed, cut into any chunks and read back by
      the receiver's message processor. */
  lemma ReplicationOverTheWire(from: Log, to: Log, k: nat, header: Header, chunks: seq<string>)
    requires Valid(from) && Valid(to) && SameUpTo(from, to, k) && to.commit.index <= k < |from.entries|
    requires AllFit([AppendEntriesRequest(header, InfoAt(from.entries, k), Since(from, k))])
    requires Concat(chunks) == Texts([AppendEntriesRequest(header, InfoAt(from.entries, k), Since(from, k))])
    ensures var received := Handled(Handle, FeedChunks(Tokens([], []), chunks).lines);
            && |received| == 1 && received[0].Deliver? && received[0].message.AppendEntriesRequest?
            && Appendable(to, received[0].message.entries)
            && Appended(to, received[0].message.entries).entries == from.entries
  {
    var m := AppendEntriesRequest(header, InfoAt(from.entries, k), Since(from, k));
    WireRoundTrip([m], chunks);
    assert [m][..0] == [];
    assert Delivers([m]) == [Deliver(m)];
    SinceMakesEqual(from, to, k);
    SinceKeepsCommitted(from, to, k);
  }
}
