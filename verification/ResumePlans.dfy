/** The plan a pair of journals yields, as the two ends use it: the sender starts its files from it, and
    both flow-control ends take their baseline from it. */
module ResumePlans {
  import opened Common
  import J = ResumeJournal
  import W = FlowWindow
  import C = FlowChannels

  /** The plan's files by entry. */
  function PlanMap(files: seq<J.ResumeFile>): map<nat, J.ResumeFile>
    requires forall f :: f in files ==> f.entry >= 0
  {
    if files == [] then map[] else map[files[0].entry as nat := files[0]] + PlanMap(files[1..])
  }

  /** The plan as flow control reads it. */
  function WindowPlan(files: seq<J.ResumeFile>): (plan: seq<C.PlanFile>)
    requires forall f :: f in files ==> f.entry >= 0 && f.durable >= 0
    ensures |plan| == |files|
    ensures forall k :: 0 <= k < |files| ==> plan[k] == C.PlanFile(files[k].entry, files[k].durable, files[k].completed)
  {
    seq(|files|, k requires 0 <= k < |files| => C.PlanFile(files[k].entry, files[k].durable, files[k].completed))
  }

  /** Entries as a valid incoming journal has them. */
  ghost predicate InOrder(empty: Digest, es: seq<J.Entry>) {
    forall k :: 0 <= k < |es| ==> es[k].p.Received? && J.ShapeOk(J.Incoming, k, es[k]) && J.GeometryOk(empty, es[k])
  }

  lemma EvidenceAt(empty: Digest, es: seq<J.Entry>, k: nat)
    requires InOrder(empty, es) && k < |es|
    ensures es[k].p.Received? && (es[k].id.kind == J.File ==> J.Evidence(es[k]).entry == k && 0 <= J.Evidence(es[k]).durable <= es[k].id.size)
  {
    assert J.ShapeOk(J.Incoming, k, es[k]) && J.GeometryOk(empty, es[k]);
  }

  /** The evidence of entry `f.entry`, which is a file at or after `i`. */
  predicate Planned(es: seq<J.Entry>, i: nat, f: J.ResumeFile) {
    i <= f.entry < |es| && es[f.entry].id.kind == J.File && es[f.entry].p.Received? && f == J.Evidence(es[f.entry]) && f.durable >= 0
  }

  lemma {:induction false} FilesInOrder(empty: Digest, es: seq<J.Entry>, i: nat)
    requires InOrder(empty, es) && i <= |es|
    ensures var files := J.FilesFrom(es, i);
      && (forall f :: f in files ==> Planned(es, i, f))
      && (forall a, b :: 0 <= a < b < |files| ==> files[a].entry < files[b].entry)
    decreases |es| - i
  {
    if i < |es| {
      FilesInOrder(empty, es, i + 1);
      EvidenceAt(empty, es, i);
      FilesStep(empty, es, i);
      hide InOrder, J.FilesFrom;
      var rest := J.FilesFrom(es, i + 1);
      var files := J.FilesFrom(es, i);
      forall f | f in files ensures Planned(es, i, f) {
        assert f in rest ==> Planned(es, i + 1, f);
      }
      forall a, b | 0 <= a < b < |files| ensures files[a].entry < files[b].entry {
        if es[i].id.kind == J.File {
          assert files[b] in rest && Planned(es, i + 1, files[b]);
          assert a > 0 ==> files[a] == rest[a - 1] && files[b] == rest[b - 1];
        }
      }
    }
  }

  lemma FilesStep(empty: Digest, es: seq<J.Entry>, i: nat)
    requires InOrder(empty, es) && i < |es|
    ensures J.FilesFrom(es, i) == (if es[i].id.kind == J.File then [J.Evidence(es[i])] else []) + J.FilesFrom(es, i + 1)
  {
  }

  /** The map holds the evidence of exactly the files from `i` on. */
  predicate MapIs(p: map<nat, J.ResumeFile>, es: seq<J.Entry>, i: nat)
    requires forall k :: 0 <= k < |es| ==> es[k].p.Received?
  {
    && (forall k :: k in p ==> i <= k < |es| && es[k].id.kind == J.File && p[k] == J.Evidence(es[k]))
    && (forall k: nat :: i <= k < |es| && es[k].id.kind == J.File ==> k in p)
  }

  lemma MapGrows(p: map<nat, J.ResumeFile>, es: seq<J.Entry>, i: nat)
    requires forall k :: 0 <= k < |es| ==> es[k].p.Received?
    requires i < |es| && MapIs(p, es, i + 1)
    ensures es[i].id.kind == J.File ==> MapIs(map[i := J.Evidence(es[i])] + p, es, i)
    ensures es[i].id.kind == J.Directory ==> MapIs(p, es, i)
  {
  }

  lemma {:induction false} MapOfFiles(empty: Digest, es: seq<J.Entry>, i: nat)
    requires InOrder(empty, es) && i <= |es|
    ensures forall k :: 0 <= k < |es| ==> es[k].p.Received?
    ensures forall f :: f in J.FilesFrom(es, i) ==> f.entry >= 0
    ensures MapIs(PlanMap(J.FilesFrom(es, i)), es, i)
    decreases |es| - i
  {
    assert forall k :: 0 <= k < |es| ==> es[k].p.Received?;
    FilesInOrder(empty, es, i);
    if i < |es| {
      MapOfFiles(empty, es, i + 1);
      FilesStep(empty, es, i);
      EvidenceAt(empty, es, i);
      hide InOrder, J.FilesFrom, MapIs, J.Evidence;
      var rest := J.FilesFrom(es, i + 1);
      MapGrows(PlanMap(rest), es, i);
      if es[i].id.kind == J.File {
        PlanMapStep(J.Evidence(es[i]), rest);
      } else {
        assert J.FilesFrom(es, i) == rest;
      }
    }
  }

  lemma PlanMapStep(f: J.ResumeFile, rest: seq<J.ResumeFile>)
    requires f.entry >= 0 && forall g :: g in rest ==> g.entry >= 0
    ensures PlanMap([f] + rest) == map[f.entry as nat := f] + PlanMap(rest)
  {
    assert ([f] + rest)[1..] == rest;
  }

  /** A pair that yields a plan: every file of the receiver's journal is in it with the receiver's durable
      offset and prefix hash, nothing else is, and no offset is beyond its file. */
  lemma PairPlan(empty: Digest, outgoing: J.Journal, incoming: J.Journal, m: J.Manifest, plan: J.ResumePlan)
    requires J.ValidateResumePair(empty, outgoing, incoming, m) == Ok(plan)
    ensures plan.transfer == incoming.transfer && |m.entries| == |incoming.entries| && InOrder(empty, incoming.entries)
    ensures forall f :: f in plan.files ==> 0 <= f.entry < |m.entries| && m.entries[f.entry].kind == J.File && 0 <= f.durable <= f.size == m.entries[f.entry].size
    ensures forall k: nat :: k in PlanMap(plan.files) <==> k < |m.entries| && m.entries[k].kind == J.File
    ensures forall k :: k in PlanMap(plan.files) ==> PlanMap(plan.files)[k] == J.Evidence(incoming.entries[k])
    ensures forall a, b :: 0 <= a < b < |plan.files| ==> plan.files[a].entry < plan.files[b].entry
    ensures forall k :: 0 <= k < |m.entries| ==> incoming.entries[k].id == m.entries[k] && m.entries[k].size >= 0
  {
    J.PairYieldsPlan(empty, outgoing, incoming, m);
    J.ValidMeansNoFault(empty, J.Incoming, incoming.entries);
    var es := incoming.entries;
    assert |J.Identities(es)| == |es|;
    forall k | 0 <= k < |es|
      ensures es[k].p.Received? && J.ShapeOk(J.Incoming, k, es[k]) && J.GeometryOk(empty, es[k]) && es[k].id == m.entries[k]
    {
      assert J.Identities(es)[k] == es[k].id;
    }
    hide J.GeometryOk;
    FilesInOrder(empty, es, 0);
    MapOfFiles(empty, es, 0);
  }

  /** No file is longer than any valid manifest allows, and these are the sizes flow control goes by. */
  ghost predicate Sizes(m: J.Manifest, size: nat -> nat) {
    forall k: nat :: k < |m.entries| && m.entries[k].kind == J.File ==> size(k) == m.entries[k].size <= W.MAX_LOGICAL_OFFSET
  }

  /** The plan fits flow control: one entry per file, none beyond its size. */
  lemma PairFitsWindow(empty: Digest, outgoing: J.Journal, incoming: J.Journal, m: J.Manifest, plan: J.ResumePlan, size: nat -> nat)
    requires J.ValidateResumePair(empty, outgoing, incoming, m) == Ok(plan) && Sizes(m, size)
    ensures forall f :: f in plan.files ==> f.entry >= 0 && f.durable >= 0
    ensures C.PlanOk(WindowPlan(plan.files), size)
  {
    PairPlan(empty, outgoing, incoming, m, plan);
    hide J.ValidateResumePair, PlanMap, J.GeometryOk;
    var w := WindowPlan(plan.files);
    forall k | 0 <= k < |w| ensures w[k].entry <= W.MAX_ENTRY_INDEX && w[k].durable <= size(w[k].entry) <= W.MAX_LOGICAL_OFFSET {
      var f := plan.files[k];
      assert f in plan.files;
      assert J.ShapeOk(J.Incoming, f.entry, incoming.entries[f.entry]);
    }
  }

  /** Resumed from the plan of a pair of journals, an open window applies the next acknowledgement exactly
      when it is acceptable, which every plain one is; and a receiver that only sends plain ones never
      closes the window, whatever happens. */
  lemma ResumedPairNeverRefuses(empty: Digest, outgoing: J.Journal, incoming: J.Journal, m: J.Manifest, plan: J.ResumePlan, size: nat -> nat,
                                l: W.Limits, peer: W.Peer, events: seq<C.Event>)
    requires J.ValidateResumePair(empty, outgoing, incoming, m) == Ok(plan) && Sizes(m, size) && W.ValidLimits(l)
    ensures forall f :: f in plan.files ==> f.entry >= 0 && f.durable >= 0
    ensures var w := WindowPlan(plan.files);
            C.Agree(l, C.Files(size, C.Completed(w)), C.Started(plan.transfer, peer, w))
    ensures var w := WindowPlan(plan.files);
            var s := C.Run(l, C.Files(size, C.Completed(w)), C.Started(plan.transfer, peer, w), events);
            && (!s.w.closed && s.acks != [] ==>
                  && W.AckWellFormed(s.acks[0]) && s.w.acked.Keys <= s.w.durable.Keys
                  && var r := W.AckWindow(s.w, s.acks[0]).1;
                  && (r.AckApplied? <==> C.Acceptable(s.w, s.acks[0]))
                  && (s.acks[0].state == W.Transferring ==> r.AckApplied? && r.discardedBytes == 0))
            && ((forall ev :: ev in events ==> C.Plain(ev)) ==> !s.w.closed && forall a :: a in s.acks ==> a.state == W.Transferring)
  {
    PairFitsWindow(empty, outgoing, incoming, m, plan, size);
    var w := WindowPlan(plan.files);
    C.NoAckIsEverRefused(l, size, plan.transfer, peer, w, events);
    C.StartedIsGood(l, size, plan.transfer, peer, w);
    assert C.Started(plan.transfer, peer, w).acks == [];
    hide C.Run, C.Started, W.AckWindow, W.AckWellFormed, C.PlanOk, J.ValidateResumePair;
    var f, s := C.Files(size, C.Completed(w)), C.Started(plan.transfer, peer, w);
    if forall ev :: ev in events ==> C.Plain(ev) {
      C.PlainAcksNeverClose(l, f, s, events);
      C.GoodKeys(l, f, C.Run(l, f, s, events));
    }
  }
}
