/** The `proposals` table of `models/Proposal.js`: an editor's bid on a
    job.  A proposal is inserted pending; accepting one marks it accepted
    and rejecting the others turns the job's remaining pending proposals
    into rejected ones. */
module Proposals {
  import opened Common
  import opened Schema
  import opened Queries
  import Users

  datatype Proposal = Proposal(id: nat, jobId: int, editorId: int, price: Option<int>, estimatedDays: Option<int>,
                               message: Option<string>, status: ProposalStatus, createdAt: Time)

  /** `ORDER BY created_at DESC`. */
  function NewestFirst(p: Proposal): seq<Term> {
    [Desc(Int(p.createdAt))]
  }

  /** The `findByJob` join and filter: the job's proposals whose editor
      exists. */
  function OfJob(accounts: map<nat, Users.User>, jobId: int): Proposal -> bool {
    (p: Proposal) => p.jobId == jobId && Users.Present(accounts, p.editorId)
  }

  /** `WHERE job_id = ? AND status = 'accepted'`. */
  function AcceptedFor(jobId: int): Proposal -> bool {
    (p: Proposal) => p.jobId == jobId && p.status == Accepted
  }

  /** At most one proposal per job and editor. */
  ghost predicate OnePerEditor(rows: map<nat, Proposal>) {
    forall a, b :: a in rows && b in rows && a != b && rows[a].jobId == rows[b].jobId ==>
      rows[a].editorId != rows[b].editorId
  }

  /** Adding a proposal under a fresh id keeps one proposal per editor and
      job, provided that editor had none on that job. */
  lemma AddKeepsOnePerEditor(rows: map<nat, Proposal>, p: Proposal)
    requires OnePerEditor(rows) && p.id !in rows
    requires forall id :: id in rows ==> !(rows[id].jobId == p.jobId && rows[id].editorId == p.editorId)
    ensures OnePerEditor(rows[p.id := p])
  {
  }

  /** The `proposals` table. */
  class ProposalTable {
    var rows: map<nat, Proposal>
    var nextId: nat

    ghost predicate Valid()
      reads this
    {
      nextId >= 1 && forall id :: id in rows ==> rows[id].id == id && 1 <= id < nextId
    }

    constructor ()
      ensures Valid() && rows == map[]
    {
      rows := map[];
      nextId := 1;
    }

    /** `Proposal.create`: one pending proposal, returned as stored. */
    method Create(jobId: int, editorId: int, price: Option<int>, message: Option<string>, now: Time)
      returns (p: Proposal)
      requires Valid()
      modifies this
      ensures Valid()
      ensures p == Proposal(old(nextId), jobId, editorId, price, None, message, ProposalPending, now)
      ensures p.id !in old(rows) && rows == old(rows)[p.id := p]
    {
      p := Proposal(nextId, jobId, editorId, price, None, message, ProposalPending, now);
      rows := rows[nextId := p];
      nextId := nextId + 1;
    }

    /** `Proposal.findById`. */
    function FindById(id: int): (r: Option<Proposal>)
      reads this
      ensures r.Some? <==> id >= 0 && id in rows
      ensures r.Some? ==> r.value == rows[id]
    {
      if id >= 0 && id in rows then Some(rows[id]) else None
    }

    /** `Proposal.findByJob`: the job's proposals whose editor still has an
        account, newest first. */
    function FindByJob(accounts: map<nat, Users.User>, jobId: int): (r: seq<Proposal>)
      requires Valid()
      reads this
      ensures forall p :: p in r <==> p in rows.Values && p.jobId == jobId && Users.Present(accounts, p.editorId)
      ensures Listing(r, Rows(rows, nextId), OfJob(accounts, jobId), NewestFirst)
    {
      SelectRows(rows, nextId, OfJob(accounts, jobId), NewestFirst)
    }

    /** `Proposal.findByJobAndEditor`: the first such proposal in table
        order. */
    function FindByJobAndEditor(jobId: int, editorId: int): (r: Option<Proposal>)
      requires Valid()
      reads this
      ensures r.Some? <==> exists id :: id in rows && rows[id].jobId == jobId && rows[id].editorId == editorId
      ensures r.Some? ==> r.value in rows.Values && r.value.jobId == jobId && r.value.editorId == editorId
    {
      var all := Rows(rows, nextId);
      var hits := Filter(all, (p: Proposal) => p.jobId == jobId && p.editorId == editorId);
      assert forall id :: id in rows && rows[id].jobId == jobId && rows[id].editorId == editorId ==>
        rows[id] in hits by {
        forall id | id in rows && rows[id].jobId == jobId && rows[id].editorId == editorId
          ensures rows[id] in hits
        {
          assert rows[id] in all;
        }
      }
      if hits == [] then None
      else
        assert hits[0] in all;
        Some(hits[0])
    }

    /** `Proposal.hasAcceptedForJob`: the first accepted proposal of the
        job in table order, if there is one. */
    function HasAcceptedForJob(jobId: int): (r: Option<Proposal>)
      requires Valid()
      reads this
      ensures r.Some? <==> exists id :: id in rows && rows[id].jobId == jobId && rows[id].status == Accepted
      ensures r.Some? ==> r.value in rows.Values && r.value.jobId == jobId && r.value.status == Accepted
    {
      var all := Rows(rows, nextId);
      var hits := Filter(all, AcceptedFor(jobId));
      assert forall id :: id in rows && rows[id].jobId == jobId && rows[id].status == Accepted ==>
        rows[id] in hits by {
        forall id | id in rows && rows[id].jobId == jobId && rows[id].status == Accepted
          ensures rows[id] in hits
        {
          assert rows[id] in all;
        }
      }
      if hits == [] then None
      else
        assert hits[0] in all;
        Some(hits[0])
    }

    /** `Proposal.markAccepted`: that proposal alone becomes accepted; an
        unknown id changes nothing. */
    method MarkAccepted(id: int)
      requires Valid()
      modifies this
      ensures Valid() && nextId == old(nextId)
      ensures rows.Keys == old(rows.Keys)
      ensures id >= 0 && id in rows ==> rows[id] == old(rows[id]).(status := Accepted)
      ensures forall k :: k in rows && k != id ==> rows[k] == old(rows[k])
    {
      if id >= 0 && id in rows {
        rows := rows[id as nat := rows[id].(status := Accepted)];
      }
    }

    /** `Proposal.rejectOthers`: every pending proposal of the job becomes
        rejected; every other proposal is left as it was. */
    method RejectOthers(jobId: int)
      requires Valid()
      modifies this
      ensures Valid() && nextId == old(nextId)
      ensures rows.Keys == old(rows.Keys)
      ensures forall k :: k in rows ==>
        rows[k] == if old(rows[k]).jobId == jobId && old(rows[k]).status == ProposalPending
                   then old(rows[k]).(status := Rejected) else old(rows[k])
    {
      rows := map k | k in rows :: if rows[k].jobId == jobId && rows[k].status == ProposalPending
                                  then rows[k].(status := Rejected) else rows[k];
    }
  }
}
