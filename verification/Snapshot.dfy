/**
 The token accounts outside the policy that a snapshot names, and what the offline verifier asks of them: one
 source, the treasury's one destination, and the founder's destinations.
 */
module Snapshot {
  import opened Basics
  import opened State
  import opened Tokens

  datatype Named = Named(source: Addr, destination: Addr, founders: seq<Addr>)

  /** Every token account that a snapshot shows. */
  function Shown(n: Named): seq<Addr> {
    [n.source, VaultToken(Founder), VaultToken(Treasury), n.destination] + n.founders
  }

  predicate Distinct(names: seq<Addr>) { forall i, j :: 0 <= i < j < |names| ==> names[i] != names[j] }

  /** Different accounts of the mint, with one to eight of them the founder's. */
  predicate Declared(w: World, n: Named) {
    && 1 <= |n.founders| <= 8
    && Distinct(Shown(n))
    && (forall a | a in Shown(n) :: a in w.tokens)
  }

  function Total(tokens: map<Addr, TokenAccount>, names: seq<Addr>): nat {
    if names == [] then 0 else Total(tokens, names[..|names| - 1]) + Balance(tokens, names[|names| - 1])
  }

  predicate DepositedBy(w: World, owner: Key) {
    && Founder in w.vaults && w.vaults[Founder].depositor == owner
    && Treasury in w.vaults && w.vaults[Treasury].depositor == owner
  }

  predicate Names(a: Approval, recipient: Addr, owner: Key) { a.recipient == recipient && a.recipientOwner == owner }

  predicate PaidTo(w: World, recipient: Addr, owner: Key) {
    forall p | p in w.registry.approvals :: Names(w.registry.approvals[p], recipient, owner)
  }

  /** A destination of the founder's that holds anything belongs to a key of the founder's. */
  predicate FoundersOwn(w: World, founders: seq<Addr>, keys: seq<Key>) {
    forall a | a in founders :: a in w.tokens && (w.tokens[a].amount == 0 || w.tokens[a].owner in keys)
  }

  /** The verifier's checks of the named accounts, given every key the founder's role ever had. */
  predicate NamesVerify(w: World, n: Named, keys: seq<Key>) {
    && Declared(w, n)
    && DepositedBy(w, w.tokens[n.source].owner)
    && Total(w.tokens, Shown(n)) == w.terms.mint.supply
    && FoundersOwn(w, n.founders, keys)
    && Total(w.tokens, n.founders) == w.books.released.founder
    && PaidTo(w, n.destination, w.tokens[n.destination].owner)
    && w.tokens[n.destination].amount == w.books.released.treasury
  }

  /* ---- When they hold ---- */

  /** One key deposited both pools. */
  predicate SingleDepositor(w: World) {
    forall r, s | r in w.vaults && s in w.vaults :: w.vaults[r].depositor == w.vaults[s].depositor
  }

  /** All approvals ever made name one recipient account, under one owner. */
  predicate SingleRecipient(w: World) {
    forall p, q | p in w.registry.approvals && q in w.registry.approvals ::
      Names(w.registry.approvals[p], w.registry.approvals[q].recipient, w.registry.approvals[q].recipientOwner)
  }

  predicate HasDepositor(w: World, owner: Key) { exists r | r in w.vaults :: w.vaults[r].depositor == owner }

  predicate HasRecipient(w: World, recipient: Addr, owner: Key) {
    exists p | p in w.registry.approvals :: Names(w.registry.approvals[p], recipient, owner)
  }

  /** The source belongs to a depositor, and the destination to an approval, if any, that names it. */
  predicate Held(w: World, n: Named) {
    && n.source in w.tokens && n.destination in w.tokens
    && HasDepositor(w, w.tokens[n.source].owner)
    && (w.registry.approvals == map[] || HasRecipient(w, n.destination, w.tokens[n.destination].owner))
  }

  /** Between one and eight destinations of the founder's, and no account of the mint is shown twice. */
  predicate Separate(w: World, n: Named) {
    var names := Shown(n);
    && 1 <= |n.founders| <= 8 && (forall i | 0 <= i < |names| :: names[i] in w.tokens)
    && (forall i, j | 0 <= i < |names| && 0 <= j < |names| && names[i] == names[j] :: i == j)
  }

  lemma SeparateExactly(w: World, n: Named)
    ensures Declared(w, n) <==> Separate(w, n)
  {
    var names := Shown(n);
    forall i | 0 <= i < |names| ensures names[i] in names {
    }
    if Separate(w, n) {
      forall i, j | 0 <= i < j < |names| ensures names[i] != names[j] {
      }
    }
  }

  /** The destinations hold exactly what was paid, the founder's under its keys, and nothing is held out of sight. */
  predicate Settled(w: World, n: Named, keys: seq<Key>, founder: nat, treasury: nat) {
    && (forall a | a in n.founders && a in w.tokens && w.tokens[a].amount > 0 :: w.tokens[a].owner in keys)
    && Total(w.tokens, n.founders) == founder
    && Balance(w.tokens, n.destination) == treasury
    && (forall a | a in w.tokens && a !in Shown(n) :: w.tokens[a].amount == 0)
  }

  ghost function Rest(tokens: map<Addr, TokenAccount>, names: seq<Addr>): map<Addr, TokenAccount> {
    map a | a in tokens && a !in names :: tokens[a]
  }

  /** The named accounts and all others together hold the supply. */
  lemma {:induction false} NamedAndRest(tokens: map<Addr, TokenAccount>, names: seq<Addr>)
    requires Distinct(names) && forall a | a in names :: a in tokens
    ensures Supply(tokens) == Total(tokens, names) + Supply(Rest(tokens, names))
  {
    if names == [] {
      assert Rest(tokens, names) == tokens;
    } else {
      var before, last := names[..|names| - 1], names[|names| - 1];
      NamedAndRest(tokens, before);
      SumWithout(Rest(tokens, before), AmountOf, last);
      assert Rest(tokens, before) - {last} == Rest(tokens, names);
    }
  }

  lemma {:induction false} NothingHeld(tokens: map<Addr, TokenAccount>)
    ensures Supply(tokens) == 0 <==> forall a | a in tokens :: tokens[a].amount == 0
    decreases |tokens|
  {
    if a :| a in tokens {
      SumWithout(tokens, AmountOf, a);
      NothingHeld(tokens - {a});
      assert forall b | b in tokens :: b == a || b in tokens - {a};
    }
  }

  /** The named accounts hold the whole supply exactly when no other account holds anything. */
  lemma ConservedExactly(tokens: map<Addr, TokenAccount>, names: seq<Addr>)
    requires Distinct(names) && forall a | a in names :: a in tokens
    ensures Total(tokens, names) == Supply(tokens) <==> forall a | a in tokens && a !in names :: tokens[a].amount == 0
  {
    NamedAndRest(tokens, names);
    NothingHeld(Rest(tokens, names));
    assert forall a :: a in Rest(tokens, names) <==> a in tokens && a !in names;
  }

  lemma DepositorExactly(w: World, source: Addr)
    requires Founder in w.vaults && Treasury in w.vaults && source in w.tokens
    ensures DepositedBy(w, w.tokens[source].owner) <==> SingleDepositor(w) && HasDepositor(w, w.tokens[source].owner)
  {
    if DepositedBy(w, w.tokens[source].owner) {
      forall r | r in w.vaults ensures w.vaults[r].depositor == w.tokens[source].owner {
        if r.Founder? {} else {}
      }
    }
  }

  lemma RecipientExactly(w: World, destination: Addr)
    requires destination in w.tokens
    ensures PaidTo(w, destination, w.tokens[destination].owner) <==>
      SingleRecipient(w) && (w.registry.approvals == map[] || HasRecipient(w, destination, w.tokens[destination].owner))
  {
    if w.registry.approvals != map[] && PaidTo(w, destination, w.tokens[destination].owner) {
      var p :| p in w.registry.approvals;
      assert Names(w.registry.approvals[p], destination, w.tokens[destination].owner);
    }
  }

  lemma FoundersExactly(w: World, n: Named, keys: seq<Key>)
    requires Declared(w, n)
    ensures FoundersOwn(w, n.founders, keys) <==>
      forall a | a in n.founders && a in w.tokens && w.tokens[a].amount > 0 :: w.tokens[a].owner in keys
  {
    forall a | a in n.founders ensures a in Shown(n) {
    }
  }

  /** The checks of the named accounts, on a state that holds its whole supply. */
  lemma NamesExactly(w: World, n: Named, keys: seq<Key>)
    requires Founder in w.vaults && Treasury in w.vaults && Supply(w.tokens) == w.terms.mint.supply
    ensures NamesVerify(w, n, keys) <==>
      (Separate(w, n) && SingleDepositor(w) && SingleRecipient(w) && Held(w, n)
       && Settled(w, n, keys, w.books.released.founder, w.books.released.treasury))
  {
    hide DepositedBy, PaidTo, SingleDepositor, SingleRecipient, Total, Supply, Distinct, HasDepositor, HasRecipient,
      Separate, FoundersOwn;
    SeparateExactly(w, n);
    if Declared(w, n) {
      FoundersExactly(w, n, keys);
      assert n.source in Shown(n) && n.destination in Shown(n);
      ConservedExactly(w.tokens, Shown(n));
      DepositorExactly(w, n.source);
      RecipientExactly(w, n.destination);
    }
  }

  /* ---- The checks as they run ---- */

  method VerifyFounders(w: World, founders: seq<Addr>, keys: seq<Key>) returns (ok: bool)
    requires forall a | a in founders :: a in w.tokens
    ensures ok <==> FoundersOwn(w, founders, keys)
  {
    for i := 0 to |founders|
      invariant forall a | a in founders[..i] :: w.tokens[a].amount == 0 || w.tokens[a].owner in keys
    {
      if w.tokens[founders[i]].amount != 0 && w.tokens[founders[i]].owner !in keys { return false; }
      assert founders[..i + 1] == founders[..i] + [founders[i]];
    }
    assert founders[..|founders|] == founders;
    return true;
  }

  /** Adds up the balances of the named accounts. */
  method AddUp(tokens: map<Addr, TokenAccount>, names: seq<Addr>) returns (total: nat)
    ensures total == Total(tokens, names)
  {
    total := 0;
    for i := 0 to |names|
      invariant total == Total(tokens, names[..i])
    {
      assert names[..i + 1][..i] == names[..i];
      total := total + Balance(tokens, names[i]);
    }
    assert names[..|names|] == names;
  }

  method VerifyNames(w: World, n: Named, keys: seq<Key>) returns (ok: bool)
    ensures ok <==> NamesVerify(w, n, keys)
  {
    hide DepositedBy, PaidTo, FoundersOwn, Total, Distinct;
    if !Declared(w, n) { return false; }
    assert n.source in Shown(n) && n.destination in Shown(n);
    var supply := AddUp(w.tokens, Shown(n));
    if !DepositedBy(w, w.tokens[n.source].owner) || supply != w.terms.mint.supply { return false; }
    var founders := VerifyFounders(w, n.founders, keys);
    var paid := AddUp(w.tokens, n.founders);
    ok := founders && paid == w.books.released.founder && PaidTo(w, n.destination, w.tokens[n.destination].owner)
          && w.tokens[n.destination].amount == w.books.released.treasury;
  }
}
