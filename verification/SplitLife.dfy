/** What happens to one split during a whole run. */
module SplitLife {
  import opened Types
  import opened Machine
  import opened Invariants
  import opened MachineLaws
  import opened Frames
  import BalanceSpec
  import SplitterSpec

  /** A split changes only while it is pending and only by its sender's signature: it is marked
      distributed or cancelled, or a recipient is replaced. */
  ghost predicate SplitEvolves(c: Ctx, r: SplitRecord, q: SplitRecord) {
    || q == r
    || (&& r.Pending() && r.sender in c.signers
        && (q == r.(distributed := true) || q == r.(cancelled := true) || q == r.(recipients := q.recipients)))
  }

  lemma DistributeEvolves(c: Ctx, s: State, caller: Address, did: u32, id: u32)
    requires SplitterSpec.Distribute(c, s, caller, did).Some? && id in s.splits.recs
    ensures var t := SplitterSpec.Distribute(c, s, caller, did).value;
            && id in t.splits.recs
            && t.splits.recs[id] == if did == id then s.splits.recs[id].(distributed := true) else s.splits.recs[id]
    ensures did == id ==> s.splits.recs[id].Pending() && s.splits.recs[id].sender in c.signers
  {
  }

  lemma {:induction false} DistributeRestEvolves(c: Ctx, s: State, caller: Address, ids: seq<u32>, i: nat, id: u32)
    requires i <= |ids| && id in s.splits.recs && SplitterSpec.DistributeRest(c, s, caller, ids, i).Some?
    ensures var t := SplitterSpec.DistributeRest(c, s, caller, ids, i).value;
            id in t.splits.recs && SplitEvolves(c, s.splits.recs[id], t.splits.recs[id])
            && (t.splits.recs[id] == s.splits.recs[id] || t.splits.recs[id] == s.splits.recs[id].(distributed := true))
    decreases |ids| - i
  {
    hide SplitterSpec.Distribute;
    if i < |ids| {
      DistributeEvolves(c, s, caller, ids[i], id);
      DistributeRestEvolves(c, SplitterSpec.Distribute(c, s, caller, ids[i]).value, caller, ids, i + 1, id);
    }
  }

  lemma SplitCallStep(c: Ctx, s: State, call: SplitCall, id: u32)
    requires SplitsOk(s.splits) && id in s.splits.recs && ApplySplit(c, s, call).Some?
    ensures var t := ApplySplit(c, s, call).value;
            id in t.splits.recs && SplitEvolves(c, s.splits.recs[id], t.splits.recs[id])
  {
    hide SplitterSpec.PayRest, SplitterSpec.TotalDistributed, BalanceSpec.MoveFunds, SplitterSpec.DistributeRest;
    hide SplitterSpec.Swapped, SplitterSpec.Lists, SplitterSpec.ValidShares;
    if call.BulkDistribute? {
      DistributeRestEvolves(c, s, call.caller, call.ids, 0, id);
    }
  }

  lemma SplitStep(s: State, st: Step, id: u32)
    requires Sound(s) && id in s.splits.recs
    ensures id in Next(s, st).splits.recs && SplitEvolves(st.c, s.splits.recs[id], Next(s, st).splits.recs[id])
  {
    hide Sound, ApplyToken, ApplyEscrow, ApplyDispute, ApplySplit, ApplyRecurring, SplitsOk;
    Parts(s);
    if Apply(st.c, s, st.call).Some? {
      match st.call
      case OnSplit(p) => SplitCallStep(st.c, s, p, id);
      case _ => CallFrame(st.c, s, st.call);
    }
  }

  /** Sender and total of a split never change, and once distributed or cancelled it is final:
      it is never paid out a second time. */
  lemma {:induction false} SplitFinal(s: State, trace: seq<Step>, id: u32)
    requires Sound(s) && AllGenuine(trace) && id in s.splits.recs
    ensures id in Run(s, trace).splits.recs
    ensures var r, q := s.splits.recs[id], Run(s, trace).splits.recs[id];
            q.sender == r.sender && q.total == r.total && (!r.Pending() ==> q == r)
  {
    hide Sound, Next, AllGenuine;
    if trace != [] {
      AllGenuinePrefix(trace);
      var before := trace[..|trace| - 1];
      SplitFinal(s, before, id);
      RunSound(s, before);
      SplitStep(Run(s, before), trace[|trace| - 1], id);
    }
  }
}
