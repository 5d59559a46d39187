/**
 The agent's outbox: a bounded, crash-persistent queue of samples on a disk
 whose every operation may fail or stop the machine. A sample that was accepted
 is on disk, acknowledged by the hub, or counted as dropped.
 */
module Outbox {
  import opened Durations
  import opened Options
  import opened Wire

  /** A sample file and an in-memory queue entry: the sample and its encoded size. */
  datatype Entry = Entry(sample: Sample, size: nat)

  // ---------------------------------------------------------------- entries

  function IdsOf(es: seq<Entry>): set<string> {
    if es == [] then {} else {es[0].sample.id} + IdsOf(es[1..])
  }

  function TotalSize(es: seq<Entry>): nat {
    if es == [] then 0 else es[0].size + TotalSize(es[1..])
  }

  /** A well-formed queue: ordered by capture time, no ID twice, every ID among `names`. */
  ghost predicate Queue(es: seq<Entry>, names: set<string>) {
    es == [] ||
    (&& (|es| > 1 ==> es[0].sample.time <= es[1].sample.time)
     && es[0].sample.id in names && es[0].sample.id !in IdsOf(es[1..])
     && Queue(es[1..], names))
  }

  lemma {:induction false} QueueIds(es: seq<Entry>, names: set<string>, names': set<string>)
    requires Queue(es, names) && IdsOf(es) * names <= names'
    ensures IdsOf(es) <= names && Queue(es, names')
  {
    if es != [] {
      QueueIds(es[1..], names, names');
    }
  }

  /** The queue is over its byte limit or its oldest entry is too old. */
  predicate Prunable(es: seq<Entry>, cutoff: int, limit: int) {
    es != [] && (TotalSize(es) > limit || es[0].sample.time < cutoff)
  }

  /** No more bytes than the limit, and no entry older than the cutoff. */
  ghost predicate InBounds(es: seq<Entry>, cutoff: int, limit: int) {
    TotalSize(es) <= limit && forall i | 0 <= i < |es| :: cutoff <= es[i].sample.time
  }

  /** In an ordered queue the oldest entry decides: it is to be pruned exactly when a bound is exceeded. */
  lemma {:induction false} PrunableIff(es: seq<Entry>, names: set<string>, cutoff: int, limit: int)
    requires Queue(es, names) && 0 <= limit
    ensures Prunable(es, cutoff, limit) <==> !InBounds(es, cutoff, limit)
    ensures forall i | 0 <= i < |es| :: es[0].sample.time <= es[i].sample.time
  {
    if es != [] {
      PrunableIff(es[1..], names, cutoff, limit);
      assert forall i | 1 <= i < |es| :: es[i] == es[1..][i - 1];
    }
  }

  /** The queue with one more entry, in capture order. */
  function InsertByTime(es: seq<Entry>, e: Entry): seq<Entry> {
    if es == [] || e.sample.time < es[0].sample.time then [e] + es
    else [es[0]] + InsertByTime(es[1..], e)
  }

  lemma {:induction false} InsertKeepsQueue(es: seq<Entry>, e: Entry, names: set<string>)
    requires Queue(es, names) && e.sample.id !in IdsOf(es)
    ensures Queue(InsertByTime(es, e), names + {e.sample.id})
    ensures IdsOf(InsertByTime(es, e)) == IdsOf(es) + {e.sample.id}
    ensures TotalSize(InsertByTime(es, e)) == TotalSize(es) + e.size
  {
    if es == [] || e.sample.time < es[0].sample.time {
      QueueIds(es, names, names + {e.sample.id});
      assert ([e] + es)[1..] == es;
    } else {
      InsertKeepsQueue(es[1..], e, names);
      assert ([es[0]] + InsertByTime(es[1..], e))[1..] == InsertByTime(es[1..], e);
    }
  }

  /** The entries whose ID is not listed. */
  function Without(es: seq<Entry>, ids: set<string>): seq<Entry> {
    if es == [] then []
    else if es[0].sample.id in ids then Without(es[1..], ids)
    else [es[0]] + Without(es[1..], ids)
  }

  lemma {:induction false} IdsSnoc(es: seq<Entry>, i: nat)
    requires i < |es|
    ensures IdsOf(es[..i + 1]) == IdsOf(es[..i]) + {es[i].sample.id}
  {
    if i > 0 {
      IdsSnoc(es[1..], i - 1);
      assert es[..i + 1][1..] == es[1..][..i] && es[..i][1..] == es[1..][..i - 1];
    } else {
      assert es[..1] == [es[0]];
    }
  }

  lemma {:induction false} SizeSnoc(es: seq<Entry>, e: Entry)
    ensures TotalSize(es + [e]) == TotalSize(es) + e.size
  {
    if es == [] {
      assert es + [e] == [e];
    } else {
      SizeSnoc(es[1..], e);
      assert (es + [e])[1..] == es[1..] + [e];
    }
  }

  lemma {:induction false} WithoutSnoc(es: seq<Entry>, i: nat, ids: set<string>)
    requires i < |es|
    ensures Without(es[..i + 1], ids) == Without(es[..i], ids) + if es[i].sample.id in ids then [] else [es[i]]
  {
    if i > 0 {
      WithoutSnoc(es[1..], i - 1, ids);
      assert es[..i + 1][1..] == es[1..][..i] && es[..i][1..] == es[1..][..i - 1];
    } else {
      assert es[..1] == [es[0]] && es[..1][1..] == [];
    }
  }

  /** Only the listed IDs that occur matter. */
  lemma {:induction false} WithoutSame(es: seq<Entry>, ids: set<string>, ids': set<string>)
    requires IdsOf(es) * ids == IdsOf(es) * ids'
    ensures Without(es, ids) == Without(es, ids')
  {
    if es != [] {
      var h, t := es[0].sample.id, IdsOf(es[1..]);
      assert h in IdsOf(es) * ids <==> h in IdsOf(es) * ids';
      assert t * ids == t * (IdsOf(es) * ids) && t * ids' == t * (IdsOf(es) * ids');
      WithoutSame(es[1..], ids, ids');
    }
  }

  lemma {:induction false} WithoutTwice(es: seq<Entry>, gone: set<string>, ids: set<string>)
    requires gone <= ids
    ensures Without(Without(es, gone), ids) == Without(es, ids)
  {
    if es != [] {
      WithoutTwice(es[1..], gone, ids);
      var tail := Without(es[1..], gone);
      assert ([es[0]] + tail)[1..] == tail;
    }
  }

  /** Taking entries out keeps the queue well formed, also without their names. */
  lemma {:induction false} WithoutKeepsQueue(es: seq<Entry>, gone: set<string>, names: set<string>)
    requires Queue(es, names)
    ensures Queue(Without(es, gone), names - gone)
    ensures IdsOf(Without(es, gone)) == IdsOf(es) - gone
    ensures es != [] && Without(es, gone) != [] ==> es[0].sample.time <= Without(es, gone)[0].sample.time
  {
    if es != [] {
      WithoutKeepsQueue(es[1..], gone, names);
      var tail := Without(es[1..], gone);
      assert ([es[0]] + tail)[1..] == tail;
    }
  }

  lemma {:induction false} DistinctPrefix(es: seq<Entry>, i: nat, names: set<string>)
    requires Queue(es, names) && i < |es|
    ensures es[i].sample.id in IdsOf(es) && es[i].sample.id !in IdsOf(es[..i])
  {
    if i > 0 {
      DistinctPrefix(es[1..], i - 1, names);
      assert es[..i][1..] == es[1..][..i - 1];
    }
  }

  lemma SubsetCard(a: set<string>, b: set<string>)
    requires a <= b
    ensures |a| <= |b|
  {
    if a != b {
      assert b == a + (b - a);
    }
  }

  function CountIn(es: seq<Entry>, ids: set<string>): nat {
    if es == [] then 0 else (if es[0].sample.id in ids then 1 else 0) + CountIn(es[1..], ids)
  }

  /** No more IDs than entries. */
  lemma {:induction false} IdCount(es: seq<Entry>, ids: set<string>)
    ensures |IdsOf(es) * ids| <= CountIn(es, ids)
  {
    if es != [] {
      IdCount(es[1..], ids);
      var rest := IdsOf(es[1..]) * ids;
      SubsetCard(IdsOf(es) * ids, if es[0].sample.id in ids then rest + {es[0].sample.id} else rest);
    }
  }

  lemma {:induction false} QueueSize(es: seq<Entry>, names: set<string>)
    requires Queue(es, names)
    ensures |es| == |IdsOf(es)|
  {
    if es != [] {
      QueueSize(es[1..], names);
      assert IdsOf(es) == IdsOf(es[1..]) + {es[0].sample.id};
    }
  }

  lemma {:induction false} InIds(es: seq<Entry>, i: nat)
    requires i < |es|
    ensures es[i].sample.id in IdsOf(es)
  {
    if i > 0 {
      InIds(es[1..], i - 1);
    }
  }

  lemma {:induction false} Distinct(es: seq<Entry>, i: nat, j: nat, names: set<string>)
    requires Queue(es, names) && i < j < |es|
    ensures es[i].sample.id != es[j].sample.id
  {
    DistinctPrefix(es, j, names);
    InIds(es[..j], i);
  }

  lemma {:induction false} WithoutNone(es: seq<Entry>)
    ensures Without(es, {}) == es && CountIn(es, {}) == 0
  {
    if es != [] {
      WithoutNone(es[1..]);
    }
  }

  /** Taking out two lists one after the other. */
  lemma {:induction false} WithoutBoth(es: seq<Entry>, a: set<string>, b: set<string>)
    ensures Without(Without(es, a), b) == Without(es, a + b)
    ensures CountIn(es, a + b) == CountIn(es, a) + CountIn(Without(es, a), b)
  {
    if es != [] {
      WithoutBoth(es[1..], a, b);
      var tail := Without(es[1..], a);
      assert ([es[0]] + tail)[1..] == tail;
    }
  }

  /** Where the listed entries are the ones before `k` and from `m` on, what remains is the middle. */
  lemma {:induction false} WithoutMiddle(es: seq<Entry>, k: nat, m: nat, ids: set<string>)
    requires k <= m <= |es|
    requires forall i | 0 <= i < |es| :: es[i].sample.id in ids <==> i < k || m <= i
    ensures Without(es, ids) == es[k..m] && CountIn(es, ids) == |es| - (m - k)
  {
    if es != [] {
      var tail := es[1..];
      assert forall i | 0 <= i < |tail| :: tail[i] == es[i + 1];
      WithoutMiddle(tail, if k > 0 then k - 1 else 0, if m > 0 then m - 1 else 0, ids);
      if m > 0 {
        TailSlice(es, if k > 0 then k else 1, m);
      }
    }
  }

  lemma TailSlice(es: seq<Entry>, k: nat, m: nat)
    requires 1 <= k <= m <= |es|
    ensures es[1..][k - 1..m - 1] == es[k..m] && [es[0]] + es[1..][..m - 1] == es[..m]
  {
    var part, whole := es[1..][k - 1..m - 1], [es[0]] + es[1..][..m - 1];
    assert forall i | 0 <= i < m - k :: part[i] == es[k + i];
    assert forall i | 1 <= i < m :: whole[i] == es[i];
  }

  lemma OneMoreListed(id: string, rest: set<string>, ids: set<string>)
    requires id !in rest
    ensures |({id} + rest) * ids| == |rest * ids| + if id in ids then 1 else 0
  {
    assert ({id} + rest) * ids == if id in ids then rest * ids + {id} else rest * ids;
  }

  /** The first `i` entries are parted: those gone were listed, and when all went well every listed one is gone. */
  ghost predicate Parted(es: seq<Entry>, i: nat, ids: set<string>, kept: seq<Entry>, gone: set<string>, left: int, clean: bool) {
    && i <= |es| && kept == Without(es[..i], gone) && left == TotalSize(kept) + TotalSize(es[i..])
    && gone <= ids && gone <= IdsOf(es[..i]) && (clean ==> IdsOf(es[..i]) * ids <= gone)
  }

  lemma PartedKeep(es: seq<Entry>, names: set<string>, i: nat, ids: set<string>, kept: seq<Entry>, gone: set<string>,
                   left: int, clean: bool, clean': bool)
    requires Queue(es, names) && i < |es| && Parted(es, i, ids, kept, gone, left, clean)
    requires clean' ==> clean && es[i].sample.id !in ids
    ensures Parted(es, i + 1, ids, kept + [es[i]], gone, left, clean')
  {
    DistinctPrefix(es, i, names);
    IdsSnoc(es, i);
    SizeSnoc(kept, es[i]);
    WithoutSnoc(es, i, gone);
  }

  lemma PartedDrop(es: seq<Entry>, names: set<string>, i: nat, ids: set<string>, kept: seq<Entry>, gone: set<string>,
                   left: int, clean: bool)
    requires Queue(es, names) && i < |es| && Parted(es, i, ids, kept, gone, left, clean) && es[i].sample.id in ids
    ensures Parted(es, i + 1, ids, kept, gone + {es[i].sample.id}, left - es[i].size, clean)
  {
    DistinctPrefix(es, i, names);
    IdsSnoc(es, i);
    WithoutSame(es[..i], gone, gone + {es[i].sample.id});
    WithoutSnoc(es, i, gone + {es[i].sample.id});
  }

  /** In a queue every listed ID that occurs is one entry. */
  lemma {:induction false} CountIsSize(es: seq<Entry>, names: set<string>, ids: set<string>)
    requires Queue(es, names)
    ensures CountIn(es, ids) == |IdsOf(es) * ids|
  {
    if es != [] {
      CountIsSize(es[1..], names, ids);
      OneMoreListed(es[0].sample.id, IdsOf(es[1..]), ids);
    }
  }

  /** Once one list is gone, the entries of a disjoint list are still all there. */
  lemma CountListed(es: seq<Entry>, names: set<string>, gone: set<string>, ids: set<string>)
    requires Queue(es, names) && ids <= IdsOf(es) && gone !! ids
    ensures CountIn(Without(es, gone), ids) == |ids|
  {
    WithoutKeepsQueue(es, gone, names);
    CountIsSize(Without(es, gone), names - gone, ids);
    assert IdsOf(Without(es, gone)) * ids == ids;
  }

  function ToSet(ids: seq<string>): set<string> { set id | id in ids }

  /** Which entries a batch takes: all but the middle that did not fit. */
  lemma BatchTakes(batch: seq<Sample>, es: seq<Entry>, names: set<string>, i: nat)
    requires Queue(es, names) && IsBatch(batch, es) && i < |es|
    ensures es[i].sample.id in SampleIds(batch) <==> i < |batch| - 1 || |es| - 1 <= i
  {
    if i < |batch| - 1 {
      assert batch[i + 1] == es[i].sample;
    } else if i == |es| - 1 {
      assert batch[0] == es[i].sample;
    } else {
      NotInBatch(batch, es, names, i);
    }
  }

  /** Once a whole batch is gone, exactly the entries that did not fit are left, in order. */
  lemma BatchGone(batch: seq<Sample>, es: seq<Entry>, names: set<string>)
    requires Queue(es, names) && IsBatch(batch, es) && es != []
    ensures Without(es, SampleIds(batch)) == es[|batch| - 1..|es| - 1]
    ensures CountIn(es, SampleIds(batch)) == |batch|
  {
    forall i | 0 <= i < |es|
      ensures es[i].sample.id in SampleIds(batch) <==> i < |batch| - 1 || |es| - 1 <= i
    {
      BatchTakes(batch, es, names, i);
    }
    WithoutMiddle(es, |batch| - 1, |es| - 1, SampleIds(batch));
  }

  /** A batch holds distinct IDs of the queue. */
  lemma BatchIds(batch: seq<Sample>, es: seq<Entry>, names: set<string>)
    requires Queue(es, names) && IsBatch(batch, es) && es != []
    ensures DistinctIds(batch) && SampleIds(batch) <= IdsOf(es)
  {
    var n := |es|;
    forall i, j | 0 <= i < j < |batch|
      ensures batch[i].id != batch[j].id
    {
      Distinct(es, if i == 0 then j - 1 else i - 1, if i == 0 then n - 1 else j - 1, names);
    }
    forall i | 0 <= i < |batch|
      ensures batch[i].id in IdsOf(es)
    {
      InIds(es, if i == 0 then n - 1 else i - 1);
    }
    PairwiseDistinct(batch);
  }

  lemma NotInBatch(batch: seq<Sample>, es: seq<Entry>, names: set<string>, i: nat)
    requires Queue(es, names) && IsBatch(batch, es) && |batch| - 1 <= i < |es| - 1
    ensures es[i].sample.id !in SampleIds(batch)
  {
    forall j | 0 <= j < |batch|
      ensures batch[j].id != es[i].sample.id
    {
      if j == 0 {
        Distinct(es, i, |es| - 1, names);
      } else {
        Distinct(es, j - 1, i, names);
      }
    }
  }

  // ------------------------------------------------------------------- disk

  /** A sample file that opening the outbox accepts. */
  predicate ReadableAs(e: Entry, name: string) {
    e.size <= MAX_SAMPLE_BYTES && |e.sample.id| == 32 && e.sample.id == name
  }

  ghost predicate AllNamed(files: map<string, Entry>) {
    forall id | id in files :: ReadableAs(files[id], id)
  }

  /** Where sample IDs are unique, which sample each ID stands for; nothing is known otherwise. */
  type Origin = Option<map<string, Sample>>

  ghost predicate Genuine(s: Sample, origin: Origin) {
    origin.Some? ==> s.id in origin.value && origin.value[s.id] == s
  }

  ghost predicate AllGenuine(files: map<string, Entry>, origin: Origin) {
    forall id | id in files :: Genuine(files[id].sample, origin)
  }

  ghost predicate Traced(es: seq<Entry>, origin: Origin) {
    es == [] || (Genuine(es[0].sample, origin) && Traced(es[1..], origin))
  }

  lemma {:induction false} TracedAt(es: seq<Entry>, origin: Origin, i: nat)
    requires Traced(es, origin) && i < |es|
    ensures Genuine(es[i].sample, origin)
  {
    if i > 0 {
      TracedAt(es[1..], origin, i - 1);
    }
  }

  lemma {:induction false} TracedSuffix(es: seq<Entry>, origin: Origin, k: nat)
    requires Traced(es, origin) && k <= |es|
    ensures Traced(es[k..], origin)
  {
    if k > 0 {
      TracedSuffix(es[1..], origin, k - 1);
      assert es[1..][k - 1..] == es[k..];
    }
  }

  lemma {:induction false} InsertTraced(es: seq<Entry>, e: Entry, origin: Origin)
    requires Traced(es, origin) && Genuine(e.sample, origin)
    ensures Traced(InsertByTime(es, e), origin)
  {
    if es == [] || e.sample.time < es[0].sample.time {
      assert ([e] + es)[1..] == es;
    } else {
      InsertTraced(es[1..], e, origin);
      assert ([es[0]] + InsertByTime(es[1..], e))[1..] == InsertByTime(es[1..], e);
    }
  }

  lemma {:induction false} WithoutTraced(es: seq<Entry>, ids: set<string>, origin: Origin)
    requires Traced(es, origin)
    ensures Traced(Without(es, ids), origin)
  {
    if es != [] {
      WithoutTraced(es[1..], ids, origin);
      assert ([es[0]] + Without(es[1..], ids))[1..] == Without(es[1..], ids);
    }
  }

  /** What the next disk operation does: work, fail or stop the machine, before or after its effect. */
  datatype Fault = Works | FailsBefore | FailsAfter | StopsBefore | StopsAfter

  datatype Io = Done | Failed | Down

  /**
   The state directory. `files` and `counter` are what a reader sees; `settled`
   and `settledCounter` are what the last directory sync made durable. A power
   loss may undo any unsynced operation. The history fields record which sample
   IDs were durably written, which the hub acknowledged and which were given up.
   */
  class Disk {
    var files: map<string, Entry>
    var settled: map<string, Entry>
    var counter: nat
    var settledCounter: nat
    var down: bool
    var script: seq<Fault>
    ghost var accepted: set<string>
    ghost var acked: set<string>
    ghost var lost: set<string>
    ghost const origin: Origin

    constructor (script: seq<Fault>, ghost origin: Origin)
      ensures files == map[] && settled == map[] && counter == settledCounter == 0
      ensures accepted == {} && acked == {} && lost == {} && !down
      ensures Honest() && Named() && this.origin == origin
    {
      this.origin := origin;
      files, settled, counter, settledCounter := map[], map[], 0, 0;
      down, this.script := false, script;
      accepted, acked, lost := {}, {}, {};
    }

    /** Names that are on disk whether or not unsynced changes survive. */
    ghost function Sure(): set<string>
      reads this
    {
      files.Keys * settled.Keys
    }

    /** Every accepted sample is acknowledged, counted as lost, or surely on disk. */
    ghost predicate Covered()
      reads this
    {
      accepted <= acked + lost + Sure()
    }

    /** The losses are within the persisted counter, whether or not its last write survives. */
    ghost predicate Honest()
      reads this
    {
      Covered() && |lost| <= counter && |lost| <= settledCounter
    }

    /** Every sample file holds the sample it is named after, and no other than was captured. */
    ghost predicate Named()
      reads this
    {
      AllNamed(files) && AllNamed(settled) && AllGenuine(files, origin) && AllGenuine(settled, origin)
    }

    /** No fault is left in the script: every operation from now on works. */
    ghost predicate Reliable()
      reads this
    {
      script == []
    }

    method NextFault() returns (f: Fault)
      modifies this`script
      ensures old(Reliable()) ==> f.Works? && Reliable()
    {
      f := Works;
      if script != [] {
        f, script := script[0], script[1..];
      }
    }

    /** Write a temporary file, rename it to the sample's name and sync the directory. */
    method WriteSample(id: string, e: Entry) returns (r: Io)
      requires !down && Named()
      requires ReadableAs(e, id) && Genuine(e.sample, origin)
      modifies this
      ensures (r.Down? <==> down) && Named()
      ensures old(Reliable()) ==> r.Done? && Reliable()
      ensures counter == old(counter) && acked == old(acked) && lost == old(lost)
      ensures old(Covered()) ==> Covered()
      ensures files == old(files) || files == old(files)[id := e]
      ensures r.Done? ==> files == old(files)[id := e] && settled == files && settledCounter == counter
      ensures accepted == if r.Done? then old(accepted) + {id} else old(accepted)
      ensures !r.Done? ==> settled == old(settled) && settledCounter == old(settledCounter)
    {
      var f := NextFault();
      if f.Works? || f.FailsAfter? || f.StopsAfter? {
        files := files[id := e];
      }
      match f {
        case Works =>
          settled, settledCounter := files, counter;
          accepted := accepted + {id};
          return Done;
        case FailsBefore | FailsAfter => return Failed;
        case StopsBefore | StopsAfter => down := true; return Down;
      }
    }

    /** Replace the drop counter the same way. */
    method WriteCounter(value: nat) returns (r: Io)
      requires !down && Named()
      modifies this
      ensures (r.Down? <==> down) && Named()
      ensures old(Reliable()) ==> r.Done? && Reliable()
      ensures files == old(files) && accepted == old(accepted) && acked == old(acked)
      ensures lost == old(lost) && (old(Covered()) ==> Covered())
      ensures counter == old(counter) || counter == value
      ensures r.Done? ==> counter == settledCounter == value && settled == files
      ensures !r.Done? ==> settled == old(settled) && settledCounter == old(settledCounter)
    {
      var f := NextFault();
      if f.Works? || f.FailsAfter? || f.StopsAfter? {
        counter := value;
      }
      match f {
        case Works => settled, settledCounter := files, counter; return Done;
        case FailsBefore | FailsAfter => return Failed;
        case StopsBefore | StopsAfter => down := true; return Down;
      }
    }

    /** Remove a sample file; a file that does not exist counts as removed. */
    method Remove(id: string) returns (r: Io)
      requires !down && Named() && id in acked + lost
      modifies this
      ensures (r.Down? <==> down) && Named()
      ensures old(Reliable()) ==> r.Done? && Reliable()
      ensures settled == old(settled) && counter == old(counter) && settledCounter == old(settledCounter)
      ensures accepted == old(accepted) && acked == old(acked)
      ensures lost == old(lost) && (old(Covered()) ==> Covered())
      ensures r.Done? ==> files == old(files) - {id}
      ensures r.Failed? ==> files == old(files)
      ensures r.Down? ==> files == old(files) || files == old(files) - {id}
    {
      var f := NextFault();
      if f.Works? || f.StopsAfter? {
        files := files - {id};
      }
      match f {
        case Works => return Done;
        case FailsBefore | FailsAfter => return Failed;
        case StopsBefore | StopsAfter => down := true; return Down;
      }
    }

    method Sync() returns (r: Io)
      requires !down && Named()
      modifies this
      ensures (r.Down? <==> down) && Named()
      ensures old(Reliable()) ==> r.Done? && Reliable()
      ensures files == old(files) && counter == old(counter)
      ensures accepted == old(accepted) && acked == old(acked)
      ensures lost == old(lost) && (old(Covered()) ==> Covered())
      ensures (settled == files && settledCounter == counter) ||
              (settled == old(settled) && settledCounter == old(settledCounter))
    {
      var f := NextFault();
      if f.Works? || f.StopsAfter? {
        settled, settledCounter := files, counter;
      }
      match f {
        case Works => return Done;
        case FailsBefore | FailsAfter => return Failed;
        case StopsBefore | StopsAfter => down := true; return Down;
      }
    }

    /**
     The machine comes back. For each name the unsynced change survived if it is
     in `keep`, and was undone otherwise; likewise for the counter.
     */
    method Restart(keep: set<string>, keepCounter: bool)
      requires Honest() && Named()
      modifies this
      ensures Honest() && Named() && !down
      ensures accepted == old(accepted) && acked == old(acked) && lost == old(lost)
      ensures Sure() >= old(Sure())
      ensures counter == settledCounter && settled == files
    {
      files := Survivors(files, settled, keep);
      settled := files;
      counter := if keepCounter then counter else settledCounter;
      settledCounter := counter;
      down := false;
    }
  }

  /** What a power loss leaves when exactly the unsynced changes to `keep` survive. */
  function Survivors(files: map<string, Entry>, settled: map<string, Entry>, keep: set<string>): (m: map<string, Entry>)
    ensures files.Keys * settled.Keys <= m.Keys
    ensures AllNamed(files) && AllNamed(settled) ==> AllNamed(m)
    ensures forall id | id in m :: (id in files && m[id] == files[id]) || (id in settled && m[id] == settled[id])
  {
    map id | id in files.Keys + settled.Keys && (if id in keep then id in files else id in settled) ::
      if id in keep then files[id] else settled[id]
  }

  // ------------------------------------------------------------------ spool

  /** What one request carries: the newest queued sample, then the oldest ones in order, as many as fit. */
  ghost predicate IsBatch(batch: seq<Sample>, es: seq<Entry>) {
    && |batch| == Min(|es|, MAX_BATCH)
    && (es != [] ==>
          && batch[0] == es[|es| - 1].sample
          && forall i | 1 <= i < |batch| :: batch[i] == es[i - 1].sample)
  }

  datatype Status = Fine | Refused | Unreadable | IoError | Crashed

  class Spool {
    const disk: Disk
    const limit: int
    const age: int
    var entries: seq<Entry>
    var bytes: int
    var dropped: nat

    constructor (disk: Disk, entries: seq<Entry>, bytes: int, dropped: nat)
      ensures this.disk == disk && this.entries == entries && this.bytes == bytes && this.dropped == dropped
      ensures limit == MAX_QUEUE_BYTES && age == MAX_AGE
    {
      this.disk, this.entries, this.bytes, this.dropped := disk, entries, bytes, dropped;
      limit, age := MAX_QUEUE_BYTES, MAX_AGE;
    }

    /**
     The running outbox: every loss is within the in-memory counter, which is
     itself within the persisted one; the queue mirrors files on disk.
     */
    ghost predicate Valid()
      reads this, disk
    {
      && !disk.down && disk.Named()
      && disk.Covered() && |disk.lost| <= dropped <= disk.counter && dropped <= disk.settledCounter
      && Queue(entries, disk.files.Keys) && bytes == TotalSize(entries)
    }

    /** What holds after any operation, finished or interrupted. */
    ghost predicate Survives(st: Status)
      reads this, disk
    {
      disk.Honest() && disk.Named() && (st.Crashed? <==> disk.down) && (!st.Crashed? ==> Valid())
    }

    /** Write the sample's file, then put its entry in the queue. */
    method Enqueue(e: Entry) returns (st: Status)
      requires Valid() && e.sample.id !in IdsOf(entries)
      requires ReadableAs(e, e.sample.id) && Genuine(e.sample, disk.origin)
      modifies this, disk
      ensures Survives(st) && !st.Refused? && !st.Unreadable?
      ensures disk.acked == old(disk.acked)
      ensures disk.accepted == if st.Fine? then old(disk.accepted) + {e.sample.id} else old(disk.accepted)
      ensures entries == if st.Fine? then InsertByTime(old(entries), e) else old(entries)
      ensures old(disk.Reliable()) ==> st.Fine? && disk.Reliable()
      ensures old(Traced(entries, disk.origin)) ==> Traced(entries, disk.origin)
    {
      var r := disk.WriteSample(e.sample.id, e);
      if !r.Done? {
        QueueIds(entries, old(disk.files.Keys), disk.files.Keys);
        return if r.Down? then Crashed else IoError;
      }
      InsertKeepsQueue(entries, e, old(disk.files.Keys));
      if Traced(entries, disk.origin) {
        InsertTraced(entries, e, disk.origin);
      }
      assert disk.files.Keys == old(disk.files.Keys) + {e.sample.id};
      entries := InsertByTime(entries, e);
      bytes := bytes + e.size;
      st := Fine;
    }

    /** Queue a sample: the file is durable before the entry exists. */
    method Add(s: Sample, size: nat, now: int) returns (st: Status)
      requires Valid() && Genuine(s, disk.origin)
      modifies this, disk
      ensures Survives(st)
      ensures disk.acked == old(disk.acked)
      ensures disk.accepted == old(disk.accepted) || disk.accepted == old(disk.accepted) + {s.id}
      ensures st.Refused? <==> !Validate(s, now).Accepted? || size > MAX_SAMPLE_BYTES || s.id in old(IdsOf(entries))
      ensures st.Refused? ==> entries == old(entries) && disk.files == old(disk.files)
      ensures st.Fine? ==> s.id in disk.accepted && !Prunable(entries, now - age, limit)
      ensures st.Fine? ==> Pruned(InsertByTime(old(entries), Entry(s, size)), entries, now)
      ensures old(disk.Reliable()) ==> (st.Fine? || st.Refused?) && disk.Reliable()
      ensures old(Traced(entries, disk.origin)) ==> Traced(entries, disk.origin)
    {
      if !Validate(s, now).Accepted? || size > MAX_SAMPLE_BYTES {
        return Refused;
      }
      for i := 0 to |entries|
        invariant s.id in IdsOf(entries) <==> s.id in IdsOf(entries[i..])
      {
        if entries[i].sample.id == s.id {
          return Refused;
        }
      }
      st := Enqueue(Entry(s, size));
      if st.Fine? {
        st := PruneLocked(now);
      }
    }

    /** `after` is `before` without its oldest entries, each dropped while the queue was over a bound. */
    ghost predicate Pruned(before: seq<Entry>, after: seq<Entry>, now: int) {
      |after| <= |before| && PrunedBy(before, after, |before| - |after|, now)
    }

    ghost predicate PrunedBy(before: seq<Entry>, after: seq<Entry>, k: nat, now: int) {
      && k <= |before| && after == before[k..]
      && (forall j | 0 <= j < k :: Prunable(before[j..], now - age, limit))
    }

    /** The queue is pruned to its bounds, and what went was counted. */
    ghost predicate Prepared(before: seq<Entry>, count: nat, now: int)
      reads this
    {
      && Pruned(before, entries, now) && !Prunable(entries, now - age, limit)
      && dropped == count + |before| - |entries|
    }

    /** Persist the loss, then remove the oldest sample. */
    method DropOldest() returns (st: Status)
      requires Valid() && entries != []
      modifies this, disk
      ensures Survives(st) && !st.Refused? && !st.Unreadable?
      ensures disk.accepted == old(disk.accepted) && disk.acked == old(disk.acked)
      ensures st.Fine? ==> entries == old(entries)[1..] && dropped == old(dropped) + 1
      ensures st.Fine? ==> disk.files == old(disk.files) - {old(entries)[0].sample.id}
      ensures !st.Fine? ==> entries == old(entries)
      ensures old(disk.Reliable()) ==> st.Fine? && disk.Reliable()
    {
      var count := dropped + 1;
      var r := disk.WriteCounter(count);
      if !r.Done? {
        return if r.Down? then Crashed else IoError;
      }
      dropped := count;
      var e := entries[0];
      disk.lost := disk.lost + {e.sample.id};
      r := disk.Remove(e.sample.id);
      if !r.Done? {
        return if r.Down? then Crashed else IoError;
      }
      bytes := bytes - e.size;
      entries := entries[1..];
      QueueIds(entries, old(disk.files.Keys), disk.files.Keys);
      st := Fine;
    }

    /** Drop the oldest entries while a bound is exceeded, counting each loss before causing it. */
    method PruneLocked(now: int) returns (st: Status)
      requires Valid()
      modifies this, disk
      ensures Survives(st) && !st.Refused? && !st.Unreadable?
      ensures disk.accepted == old(disk.accepted) && disk.acked == old(disk.acked)
      ensures Pruned(old(entries), entries, now)
      ensures st.Fine? ==> !Prunable(entries, now - age, limit)
      ensures st.Fine? ==> dropped == old(dropped) + |old(entries)| - |entries|
      ensures old(disk.Reliable()) ==> st.Fine? && disk.Reliable()
      ensures st.Fine? && old(IdsOf(entries) == disk.files.Keys) ==> IdsOf(entries) == disk.files.Keys
      ensures old(Traced(entries, disk.origin)) ==> Traced(entries, disk.origin)
    {
      ghost var queued := entries;
      st := PruneOldest(now);
      if Traced(queued, disk.origin) {
        TracedSuffix(queued, disk.origin, |queued| - |entries|);
      }
      if !st.Fine? {
        return;
      }
      var r := disk.Sync();
      return if r.Done? then Fine else if r.Down? then Crashed else IoError;
    }

    /** The dropping loop. */
    method PruneOldest(now: int) returns (st: Status)
      requires Valid()
      modifies this, disk
      ensures Survives(st) && !st.Refused? && !st.Unreadable?
      ensures disk.accepted == old(disk.accepted) && disk.acked == old(disk.acked)
      ensures Pruned(old(entries), entries, now)
      ensures st.Fine? ==> !Prunable(entries, now - age, limit) && dropped == old(dropped) + |old(entries)| - |entries|
      ensures old(disk.Reliable()) ==> st.Fine? && disk.Reliable()
      ensures st.Fine? && old(IdsOf(entries) == disk.files.Keys) ==> IdsOf(entries) == disk.files.Keys
    {
      var cutoff := now - age;
      ghost var queued, k := entries, 0;
      st := Fine;
      while |entries| > 0 && (bytes > limit || entries[0].sample.time < cutoff)
        invariant PrunedBy(queued, entries, k, now) && Valid()
        invariant disk.accepted == old(disk.accepted) && disk.acked == old(disk.acked)
        invariant dropped == old(dropped) + k && (old(disk.Reliable()) ==> disk.Reliable())
        invariant old(IdsOf(entries) == disk.files.Keys) ==> IdsOf(entries) == disk.files.Keys
        invariant st.Fine?
        decreases |entries|
      {
        st := DropOldest();
        if !st.Fine? {
          return;
        }
        k := k + 1;
      }
    }

    /** The newest sample first, then the oldest backlog, at most one batch. */
    method Batch(now: int) returns (st: Status, out: seq<Sample>)
      requires Valid()
      modifies this, disk
      ensures Survives(st) && !st.Refused? && !st.Unreadable?
      ensures disk.accepted == old(disk.accepted) && disk.acked == old(disk.acked)
      ensures st.Fine? ==> Prepared(old(entries), old(dropped), now)
      ensures |out| <= MAX_BATCH
      ensures st.Fine? ==> IsBatch(out, entries)
      ensures old(disk.Reliable()) ==> st.Fine? && disk.Reliable()
      ensures old(Traced(entries, disk.origin)) ==>
        Traced(entries, disk.origin) && forall i | 0 <= i < |out| :: Genuine(out[i], disk.origin)
    {
      out := [];
      st := PruneLocked(now);
      var n := |entries|;
      if !st.Fine? || n == 0 {
        return;
      }
      out := [entries[n - 1].sample];
      if Traced(entries, disk.origin) {
        forall j | 0 <= j < n
          ensures Genuine(entries[j].sample, disk.origin)
        {
          TracedAt(entries, disk.origin, j);
        }
      }
      var i := 0;
      while i < n - 1 && |out| < MAX_BATCH
        invariant 0 <= i <= n - 1 && |out| == i + 1 <= MAX_BATCH
        invariant out[0] == entries[n - 1].sample
        invariant forall j | 1 <= j < |out| :: out[j] == entries[j - 1].sample
      {
        out := out + [entries[i].sample];
        i := i + 1;
      }
    }

    /** Forget acknowledged samples: the hub has stored them. */
    method Ack(ids: set<string>) returns (st: Status)
      requires Valid()
      modifies this, disk
      ensures Survives(st) && !st.Refused? && !st.Unreadable?
      ensures disk.accepted == old(disk.accepted) && disk.acked == old(disk.acked) + ids
      ensures disk.lost == old(disk.lost) && dropped == old(dropped)
      ensures !st.Crashed? ==> Without(entries, ids) == old(Without(entries, ids))
      ensures old(disk.Reliable()) ==> st.Fine? && disk.Reliable()
      ensures st.Fine? ==> entries == old(Without(entries, ids))
      ensures old(Traced(entries, disk.origin)) ==> Traced(entries, disk.origin)
    {
      disk.acked := disk.acked + ids;
      st := RemoveLocked(ids);
    }

    /** Give up samples the hub can never accept, counting them first. */
    method Reject(ids: set<string>) returns (st: Status)
      requires Valid()
      modifies this, disk
      ensures Survives(st) && !st.Refused? && !st.Unreadable?
      ensures disk.accepted == old(disk.accepted) && disk.acked == old(disk.acked)
      ensures !st.Crashed? ==> Without(entries, ids) == old(Without(entries, ids))
      ensures old(disk.Reliable()) ==> st.Fine? && disk.Reliable()
      ensures st.Fine? ==> entries == old(Without(entries, ids))
      ensures old(Traced(entries, disk.origin)) ==> Traced(entries, disk.origin)
      ensures st.Fine? ==> dropped == old(dropped) + old(CountIn(entries, ids))
    {
      var count := 0;
      for i := 0 to |entries|
        invariant count + CountIn(entries[i..], ids) == CountIn(entries, ids)
      {
        if entries[i].sample.id in ids {
          count := count + 1;
        }
        assert entries[i..][1..] == entries[i + 1..];
      }
      if count > 0 {
        var value := dropped + count;
        var r := disk.WriteCounter(value);
        if !r.Done? {
          return if r.Down? then Crashed else IoError;
        }
        dropped := value;
      }
      IdCount(entries, ids);
      disk.lost := disk.lost + IdsOf(entries) * ids;
      st := RemoveLocked(ids);
    }

    /** The queue without the acknowledged and rejected entries, the rejected ones counted. */
    ghost predicate Settled(es: seq<Entry>, count: nat, acked: set<string>, rejected: set<string>)
      reads this
    {
      entries == Without(es, acked + rejected) && dropped == count + CountIn(Without(es, acked), rejected)
    }

    /** Handle a reply: acknowledge first, and give up rejected samples only if that worked. */
    method Settle(ack: seq<string>, rejected: seq<string>) returns (st: Status)
      requires Valid()
      modifies this, disk
      ensures Survives(st) && !st.Refused? && !st.Unreadable?
      ensures disk.accepted == old(disk.accepted) && disk.acked == old(disk.acked) + ToSet(ack)
      ensures st.Fine? ==> Settled(old(entries), old(dropped), ToSet(ack), ToSet(rejected))
      ensures old(disk.Reliable()) ==> st.Fine? && disk.Reliable()
      ensures old(Traced(entries, disk.origin)) ==> Traced(entries, disk.origin)
    {
      WithoutBoth(entries, ToSet(ack), ToSet(rejected));
      WithoutNone(Without(entries, ToSet(ack)));
      assert rejected == [] ==> ToSet(rejected) == {};
      st := Ack(ToSet(ack));
      if st.Fine? && rejected != [] {
        st := Reject(ToSet(rejected));
      }
    }

    /** Remove the listed entries' files; an entry whose file cannot be removed stays queued. */
    method RemoveLocked(ids: set<string>) returns (st: Status)
      requires Valid() && IdsOf(entries) * ids <= disk.acked + disk.lost
      modifies this, disk
      ensures Survives(st) && !st.Refused? && !st.Unreadable?
      ensures disk.accepted == old(disk.accepted) && disk.acked == old(disk.acked) && disk.lost == old(disk.lost)
      ensures dropped == old(dropped)
      ensures !st.Crashed? ==> Without(entries, ids) == old(Without(entries, ids))
      ensures old(disk.Reliable()) ==> st.Fine? && disk.Reliable()
      ensures st.Fine? ==> entries == old(Without(entries, ids))
      ensures old(Traced(entries, disk.origin)) ==> Traced(entries, disk.origin)
    {
      ghost var es, names := entries, disk.files.Keys;
      var down, kept, clean;
      ghost var gone;
      down, kept, clean, gone := RemoveFiles(ids);
      if down {
        return Crashed;
      }
      WithoutKeepsQueue(es, gone, names);
      WithoutTwice(es, gone, ids);
      if Traced(es, disk.origin) {
        WithoutTraced(es, gone, disk.origin);
      }
      if clean {
        WithoutSame(es, gone, ids);
      }
      entries := kept;
      var r := disk.Sync();
      return if r.Down? then Crashed else if r.Done? && clean then Fine else IoError;
    }

    /** The removal loop: `gone` are the listed entries whose files went, `kept` all the others. */
    method RemoveFiles(ids: set<string>) returns (down: bool, kept: seq<Entry>, clean: bool, ghost gone: set<string>)
      requires Valid() && IdsOf(entries) * ids <= disk.acked + disk.lost
      modifies this`bytes, disk
      ensures down == disk.down && disk.Named() && disk.Covered()
      ensures disk.accepted == old(disk.accepted) && disk.acked == old(disk.acked) && disk.lost == old(disk.lost)
      ensures dropped <= disk.counter && dropped <= disk.settledCounter
      ensures old(disk.Reliable()) ==> !down && clean && disk.Reliable()
      ensures !down ==>
        && kept == Without(entries, gone) && disk.files.Keys == old(disk.files.Keys) - gone && bytes == TotalSize(kept)
        && gone <= ids && (clean ==> IdsOf(entries) * ids <= gone)
    {
      kept, clean, gone, down := [], true, {}, false;
      var i, left := 0, bytes;
      ghost var es, names := entries, disk.files.Keys;
      while i < |entries|
        invariant 0 <= i <= |entries| && entries == es && dropped == old(dropped)
        invariant !disk.down && disk.Named() && disk.Covered()
        invariant disk.accepted == old(disk.accepted) && disk.acked == old(disk.acked) && disk.lost == old(disk.lost)
        invariant dropped <= disk.counter && dropped <= disk.settledCounter
        invariant Parted(es, i, ids, kept, gone, left, clean) && disk.files.Keys == names - gone
        invariant old(disk.Reliable()) ==> clean && disk.Reliable()
      {
        var e := entries[i];
        if e.sample.id !in ids {
          PartedKeep(es, names, i, ids, kept, gone, left, clean, clean);
          kept := kept + [e];
        } else {
          InIds(es, i);
          var r := disk.Remove(e.sample.id);
          if r.Down? {
            down := true;
            return;
          }
          if r.Failed? {
            PartedKeep(es, names, i, ids, kept, gone, left, clean, false);
            kept, clean := kept + [e], false;
          } else {
            PartedDrop(es, names, i, ids, kept, gone, left, clean);
            left, gone := left - e.size, gone + {e.sample.id};
          }
        }
        i := i + 1;
      }
      assert es[..i] == es;
      bytes := left;
    }
  }

  /** Open the outbox after a restart: load every sample file, then enforce the bounds. */
  method OpenSpool(disk: Disk, now: int) returns (st: Status, q: Spool)
    requires disk.Honest() && !disk.down && disk.settled == disk.files && disk.counter == disk.settledCounter
    requires AllGenuine(disk.files, disk.origin)
    modifies disk
    ensures fresh(q) && q.disk == disk
    ensures disk.accepted == old(disk.accepted) && disk.acked == old(disk.acked)
    ensures st.Unreadable? <==> !AllNamed(old(disk.files))
    ensures st.Unreadable? ==> disk.files == old(disk.files)
    ensures !st.Unreadable? ==> q.Survives(st) && !st.Refused?
    ensures st.Fine? ==> IdsOf(q.entries) == disk.files.Keys && !Prunable(q.entries, now - MAX_AGE, MAX_QUEUE_BYTES)
    ensures !st.Unreadable? ==> Traced(q.entries, disk.origin)
    ensures st.Fine? ==> q.dropped == old(disk.counter) + |old(disk.files)| - |q.entries|
  {
    var ok, entries, bytes := LoadEntries(disk.files, disk.origin);
    if !ok {
      q := new Spool(disk, [], 0, disk.counter);
      return Unreadable, q;
    }
    QueueSize(entries, disk.files.Keys);
    q := new Spool(disk, entries, bytes, disk.counter);
    st := q.PruneLocked(now);
  }

  /** The machine comes back and the agent opens its outbox again. */
  method Reopen(disk: Disk, keep: set<string>, keepCounter: bool, now: int) returns (st: Status, q: Spool)
    requires disk.Honest() && disk.Named()
    modifies disk
    ensures fresh(q) && q.disk == disk && disk.Honest() && disk.Named()
    ensures disk.accepted == old(disk.accepted) && disk.acked == old(disk.acked)
    ensures st.Fine? ==> q.Valid() && Traced(q.entries, disk.origin)
  {
    disk.Restart(keep, keepCounter);
    st, q := OpenSpool(disk, now);
  }

  /** Read every sample file into its place; one that is unreadable or misnamed stops the load. */
  method LoadEntries(files: map<string, Entry>, ghost origin: Origin) returns (ok: bool, entries: seq<Entry>, bytes: int)
    requires AllGenuine(files, origin)
    ensures ok <==> AllNamed(files)
    ensures ok <==> forall name | name in files ::
      files[name].size <= 32 * 1024 && |files[name].sample.id| == 32 && files[name].sample.id == name
    ensures ok ==> Traced(entries, origin) && Queue(entries, files.Keys) && IdsOf(entries) == files.Keys && bytes == TotalSize(entries)
  {
    entries, bytes := [], 0;
    var todo := files.Keys;
    while todo != {}
      invariant todo <= files.Keys
      invariant Queue(entries, files.Keys) && bytes == TotalSize(entries) && Traced(entries, origin)
      invariant IdsOf(entries) == files.Keys - todo
      invariant forall id | id in files && id !in todo :: ReadableAs(files[id], id)
      decreases todo
    {
      var name :| name in todo;
      var e := files[name];
      if !ReadableAs(e, name) {
        return false, [], 0;
      }
      InsertKeepsQueue(entries, e, files.Keys);
      InsertTraced(entries, e, origin);
      assert files.Keys + {name} == files.Keys;
      entries, bytes, todo := InsertByTime(entries, e), bytes + e.size, todo - {name};
    }
    ok := true;
  }
}
