/**
 The model authorizes a release exactly when the vault would make it, but for the report, the cliff and the amount.
 */
module ReleaseSimulation {
  import opened Basics
  import opened State
  import opened Launch
  import opened Invariant
  import opened Ceilings
  import Tombstones
  import RegistryProofs
  import Withdrawal
  import Simulation
  import Safety
  import SimulationRuns
  import H = HistoryModel

  /** The key record that a release to an owner brings. */
  function RecordFor(r: Role, owner: Key): Option<Key> { if r.Founder? then None else Some(owner) }

  /**
   The treasury's approval and the model's grant of the period of now agree, and no approved recipient is forbidden.
   */
  lemma GrantAgrees(w: World, b: H.Book, p: u64)
    requires Inv(w) && Simulation.Related(w.terms, w.registry, w.lastActionAt, b)
    ensures p in b.grants <==> p in w.registry.approvals
    ensures p in b.grants ==>
      var a, g := w.registry.approvals[p], b.grants[p];
      && g.recipient == a.recipient && g.owner == a.recipientOwner && g.createdAt == a.createdAt
      && !H.ForbiddenRecipient(b, a.recipientOwner)
  {
    hide Inv, Tombstones.RegistryInv, Simulation.Related, Simulation.MemberOf, Simulation.SameGrants,
      H.ForbiddenRecipient, Withdrawal.EligibleRecipient;
    Simulation.RelatedFacts(w.terms, w.registry, w.lastActionAt, b, Treasury);
    Simulation.GrantKnown(w.registry.approvals, b.grants, p);
    if p in w.registry.approvals {
      Simulation.ReleaseParts(w);
      RegistryProofs.RecipientStaysEligible(w.terms, w.registry, w.lastActionAt, p);
      Simulation.RecipientTestExact(w.terms, w.registry, w.lastActionAt, b, w.registry.approvals[p].recipientOwner);
    }
  }

  /**
   In an active state, with related books,
     the model authorizes a release exactly when it is signed by the pool's current
   key in its epoch, no proposal is pending, and it goes where it must.
   */
  lemma AuthorizedExactly(w: World, b: H.Book, now: time, authority: Signer, r: Role, epoch: u64, destination: Addr,
          approval: Option<u64>)
    requires Inv(w) && Simulation.Related(w.terms, w.registry, w.lastActionAt, b)
    requires w.phase == Active && w.lastActionAt <= now && destination in w.tokens
    ensures var owner, state := w.tokens[destination].owner, w.registry.Lane(r).state;
      H.AuthorizesRelease(b, r, authority, epoch, destination, owner, now, approval) <==>
        (state.current == authority && state.epoch == epoch && state.pending == 0
         && Suitable(w, now, r, destination, approval, RecordFor(r, owner)))
  {
    hide Inv, Stands, Simulation.Related, Simulation.MemberOf, Simulation.SameGrants, H.ForbiddenRecipient;
    InvStands(w, now);
    StandsPeriod(w, now);
    Simulation.RelatedFacts(w.terms, w.registry, w.lastActionAt, b, r);
    GrantAgrees(w, b, PeriodOf(w, now));
  }

  /** A release commits exactly when the model authorizes it and its amount is positive and at most the ceiling. */
  lemma ReleaseExact(w: World, b: H.Book, now: time, authority: Signer, r: Role, amount: u64, epoch: u64,
          destination: Addr, approval: Option<u64>, recipientRecord: Option<Key>)
    requires Inv(w) && Simulation.Related(w.terms, w.registry, w.lastActionAt, b)
    requires w.phase == Active && w.lastActionAt <= now && destination in w.tokens
    requires recipientRecord == RecordFor(r, w.tokens[destination].owner)
    ensures Step(w, now, Instruction.Release(authority, r, amount, epoch, destination, approval, recipientRecord)).Ok?
      <==> (H.AuthorizesRelease(b, r, authority, epoch, destination, w.tokens[destination].owner, now, approval)
            && 0 < amount <= Ceiling(w, now, r))
  {
    hide Inv, Stands, Simulation.Related, H.AuthorizesRelease, Suitable, ReleaseStep, Available, NoticePassed;
    InvStands(w, now);
    AuthorizedExactly(w, b, now, authority, r, epoch, destination, approval);
    ReleaseExactly(w, now, authority, r, amount, epoch, destination, approval, recipientRecord);
  }

  /** In every active state of every run, over the books that the model's own run leaves. */
  lemma RunReleaseExact(w: World, events: seq<Event>, now: time, authority: Signer, r: Role, amount: u64, epoch: u64,
          destination: Addr, approval: Option<u64>, recipientRecord: Option<Key>)
    requires Safety.Genesis(w) && Run(w, events).phase == Active && Run(w, events).lastActionAt <= now
    requires destination in Run(w, events).tokens
    requires recipientRecord == RecordFor(r, Run(w, events).tokens[destination].owner)
    ensures SimulationRuns.Registered(w.terms).Some?
    ensures var b := H.DoAll(SimulationRuns.Registered(w.terms).value, SimulationRuns.Calls(w, events));
      b.Some?
      && (Step(Run(w, events), now,
              Instruction.Release(authority, r, amount, epoch, destination, approval, recipientRecord)).Ok? <==>
          H.AuthorizesRelease(b.value, r, authority, epoch, destination, Run(w, events).tokens[destination].owner, now,
              approval)
          && 0 < amount <= Ceiling(Run(w, events), now, r))
  {
    hide Inv, Safety.Genesis, Simulation.Related, H.AuthorizesRelease, ReleaseStep, Ceiling, Run,
      SimulationRuns.Registered, SimulationRuns.Calls;
    SimulationRuns.RunSimulates(w, events);
    assert events[..|events|] == events;
    Safety.Reached(w, events, |events|);
    assert Safety.At(w, events, |events|) == Run(w, events);
    ReleaseExact(Run(w, events),
        H.DoAll(SimulationRuns.Registered(w.terms).value, SimulationRuns.Calls(w, events)).value, now, authority, r,
        amount, epoch, destination, approval, recipientRecord);
  }
}
