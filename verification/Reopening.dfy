/** What reopening a stage looks at before it trusts what lies on disk, and exactly when it is content. */
module Reopening {
  import opened Common
  import opened Staging
  import J = ResumeJournal

  datatype Fault = JournalLoadFailed | CorruptPartial | PrefixMismatch

  /** Reads a file up to a length, and compares the hash when one is known. */
  function PrefixFault(sha: Content -> Digest, c: Content, size: int, digest: Option<Digest>): Option<Fault> {
    if size < 0 || |c| < size then Some(CorruptPartial)
    else if digest.Some? && digest.value != sha(c[..size]) then Some(PrefixMismatch)
    else None
  }

  /** The pass over the entries, from entry `i` on. It ends at the first file that lacks bytes. */
  function PassFault(sha: Content -> Digest, es: seq<J.Entry>, d: Disk, i: nat): Option<Fault>
    requires forall k :: 0 <= k < |es| ==> es[k].p.Received?
    decreases |es| - i
  {
    if i >= |es| then None
    else
      var e := es[i];
      if e.id.kind == J.Directory then PassFault(sha, es, d, i + 1)
      else if i in d.parts && i in d.verified then Some(CorruptPartial)
      else if e.p.storage == J.Verified || e.p.completed then
        if i !in d.parts && i !in d.verified then Some(CorruptPartial)
        else
          var fault := PrefixFault(sha, if i in d.verified then d.verified[i] else d.parts[i], e.id.size, e.p.receiver);
          if fault.Some? then fault else PassFault(sha, es, d, i + 1)
      else if e.id.size == 0 && e.p.durable == 0 && i !in d.parts then PassFault(sha, es, d, i + 1)
      else if i !in d.parts then
        if e.p.durable == 0 then None else Some(CorruptPartial)
      else PrefixFault(sha, d.parts[i], e.p.durable, e.p.prefix)
  }

  /** Why a stage found on disk is refused, if it is. */
  function ReopenFault(sha: Content -> Digest, d: Disk): Option<Fault> {
    if d.journal.None? || Terminal(d.journal.value.state) then Some(JournalLoadFailed)
    else if !forall k :: 0 <= k < |d.journal.value.entries| ==> d.journal.value.entries[k].p.Received? then Some(JournalLoadFailed)
    else if !d.present && !Pristine(d.journal.value) then Some(CorruptPartial)
    else PassFault(sha, d.journal.value.entries, d, 0)
  }

  /** The bytes of a file are the ones a hash in the journal vouches for. */
  ghost predicate Vouched(sha: Content -> Digest, c: Content, size: int, digest: Option<Digest>) {
    0 <= size <= |c| && (digest.Some? ==> sha(c[..size]) == digest.value)
  }

  /** A file that stands for itself: a complete one lies under exactly one of its names, with the bytes its
      hash vouches for. */
  ghost predicate Standing(sha: Content -> Digest, e: J.Entry, d: Disk, i: nat)
    requires e.p.Received?
  {
    e.id.kind == J.File ==>
      && (i in d.parts <==> i !in d.verified)
      && (i in d.parts ==> Vouched(sha, d.parts[i], e.id.size, e.p.receiver))
      && (i in d.verified ==> Vouched(sha, d.verified[i], e.id.size, e.p.receiver))
  }

  /** The first file that lacks bytes: it lies under no verified name, its part holds the durable bytes its
      hash vouches for, and it can be missing only when none are durable. */
  ghost predicate Awaited(sha: Content -> Digest, e: J.Entry, d: Disk, i: nat)
    requires e.p.Received?
  {
    && e.id.kind == J.File && !e.p.completed && e.p.storage != J.Verified
    && (i !in d.parts ==> e.p.durable == 0) && (i in d.parts ==> i !in d.verified && Vouched(sha, d.parts[i], e.p.durable, e.p.prefix))
  }

  /** Whatever lies on a disk, if no check fails then nothing in it is corrupt: every file up to the first one
      that lacks bytes has what the journal vouches for, and so has that one. */
  lemma {:induction false} NoFaultMeansTrue(sha: Content -> Digest, es: seq<J.Entry>, d: Disk, i: nat) returns (stop: nat)
    requires i <= |es| && (forall k :: 0 <= k < |es| ==> es[k].p.Received?) && PassFault(sha, es, d, i).None?
    ensures i <= stop <= |es| && (stop < |es| ==> Awaited(sha, es[stop], d, stop))
    ensures forall k :: i <= k < stop && (es[k].p.completed || es[k].p.storage == J.Verified) ==> Standing(sha, es[k], d, k)
    ensures forall k :: i <= k < stop && es[k].id.kind == J.File && !(es[k].p.completed || es[k].p.storage == J.Verified) ==>
      es[k].id.size == 0 && es[k].p.durable == 0 && k !in d.parts
    decreases |es| - i
  {
    stop := i;
    if i < |es| {
      var e := es[i];
      if e.id.kind == J.Directory || e.p.storage == J.Verified || e.p.completed || (e.id.size == 0 && e.p.durable == 0 && i !in d.parts) {
        stop := NoFaultMeansTrue(sha, es, d, i + 1);
      }
    }
  }

  lemma LeftoverReceived(sha: Content -> Digest, m: seq<J.Identity>, d: Disk)
    requires Leftover(sha, m, d)
    ensures forall k :: 0 <= k < |d.journal.value.entries| ==> d.journal.value.entries[k].p.Received?
  {
    forall k | 0 <= k < |d.journal.value.entries| ensures d.journal.value.entries[k].p.Received? {
      JournalReceived(sha, m, d.journal.value, k);
    }
  }

  /** With everything there, no check fails. */
  lemma {:induction false} IntactPasses(sha: Content -> Digest, m: seq<J.Identity>, d: Disk, i: nat)
    requires Leftover(sha, m, d) && StillThere(d) && i <= |d.journal.value.entries|
    requires forall k :: 0 <= k < |d.journal.value.entries| ==> d.journal.value.entries[k].p.Received?
    ensures PassFault(sha, d.journal.value.entries, d, i).None?
    decreases |d.journal.value.entries| - i
  {
    var es := d.journal.value.entries;
    if i < |es| {
      IntactPasses(sha, m, d, i + 1);
      EntryPasses(sha, m, d, i);
    }
  }

  lemma EntryPasses(sha: Content -> Digest, m: seq<J.Identity>, d: Disk, i: nat)
    requires Leftover(sha, m, d) && StillThere(d) && i < |d.journal.value.entries|
    requires forall k :: 0 <= k < |d.journal.value.entries| ==> d.journal.value.entries[k].p.Received?
    ensures var es := d.journal.value.entries;
            PassFault(sha, es, d, i).None? || PassFault(sha, es, d, i) == PassFault(sha, es, d, i + 1)
  {
    var es := d.journal.value.entries;
    var e := es[i];
    EntryFacts(sha, m, d.journal.value, i);
    hide StageJournal, NothingAhead;
    assert FileLeft(sha, e, d, i) && FileThere(e, d, i);
    if i in d.verified {
      assert d.verified[i][..|d.verified[i]|] == d.verified[i];
    }
    if i in d.parts {
      assert d.parts[i][..|d.parts[i]|] == d.parts[i];
    }
  }

  /** A missing file that the journal counts on is found missing: nothing before it lacks bytes, so the
      pass gets there unless it is stopped earlier. */
  lemma {:induction false} MissingIsFound(sha: Content -> Digest, m: seq<J.Identity>, d: Disk, i: nat, k: nat)
    requires Leftover(sha, m, d) && i <= k < |d.journal.value.entries| && !FileThere(d.journal.value.entries[k], d, k)
    requires forall n :: 0 <= n < |d.journal.value.entries| ==> d.journal.value.entries[n].p.Received?
    ensures PassFault(sha, d.journal.value.entries, d, i).Some?
    decreases k - i
  {
    var es := d.journal.value.entries;
    EntryFacts(sha, m, d.journal.value, i);
    if i < k {
      MissingIsFound(sha, m, d, i + 1, k);
      if es[i].id.kind == J.File && !es[i].p.completed {
        EntryFacts(sha, m, d.journal.value, k);
        LeftoverUntouched(sha, m, d, i, k);
        assert false;
      }
    }
  }

  /** Reopening is content with a stage exactly when its journal is not over and everything the journal
      counts on is there. */
  lemma ReopensWhenIntact(sha: Content -> Digest, m: seq<J.Identity>, d: Disk)
    requires Leftover(sha, m, d)
    ensures ReopenFault(sha, d).None? <==> d.journal.value.state !in {J.Completed, J.Cancelled, J.Purging} && StillThere(d)
  {
    LeftoverReceived(sha, m, d);
    hide Leftover, PassFault, FileThere;
    if StillThere(d) {
      IntactPasses(sha, m, d, 0);
    } else if d.present || Pristine(d.journal.value) {
      var es := d.journal.value.entries;
      var k :| 0 <= k < |es| && !FileThere(es[k], d, k);
      MissingIsFound(sha, m, d, 0, k);
    }
  }
}
