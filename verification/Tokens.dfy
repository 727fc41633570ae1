/** Token accounts of one mint: transfers, and the conservation of their total. */
module Tokens {
  import opened Basics
  import opened State

  function Transfer(tokens: map<Addr, TokenAccount>, from: Addr, to: Addr, amount: u64): Result<map<Addr, TokenAccount>>
  {
    if from !in tokens || to !in tokens then Err(Constraint) else
    :- Require(amount <= tokens[from].amount, InsufficientFunds);
    if from == to then Ok(tokens)
    else
      var received :- CheckedAdd(tokens[to].amount, amount, Overflow);
      Ok(tokens[from := tokens[from].(amount := tokens[from].amount - amount)][to := tokens[to].(amount := received)])
  }

  function Balance(tokens: map<Addr, TokenAccount>, a: Addr): u64 { if a in tokens then tokens[a].amount else 0 }

  /**
   A transfer moves its amount from one account to the other, and leaves every other balance and every owner alone.
   */
  lemma TransferMoves(tokens: map<Addr, TokenAccount>, from: Addr, to: Addr, amount: u64)
    requires Transfer(tokens, from, to, amount).Ok?
    ensures var tokens' := Transfer(tokens, from, to, amount).value;
      && from in tokens && to in tokens && amount <= tokens[from].amount
      && tokens'.Keys == tokens.Keys && (forall a :: a in tokens ==> tokens'[a].owner == tokens[a].owner)
      && (from != to ==> Balance(tokens', from) == Balance(tokens, from) - amount)
      && (from != to ==> Balance(tokens', to) == Balance(tokens, to) + amount)
      && (forall a :: (a != from && a != to) || from == to ==> Balance(tokens', a) == Balance(tokens, a))
  {
  }

  /** The sum of a measure over the entries of a map. */
  ghost function Sum<K(!new), V>(m: map<K, V>, measure: V -> nat): nat {
    if m == map[] then 0
    else
      var k :| k in m;
      measure(m[k]) + Sum(m - {k}, measure)
  }

  /** The sum does not depend on the order in which entries are taken. */
  lemma {:induction false} SumWithout<K(!new), V>(m: map<K, V>, measure: V -> nat, k: K)
    requires k in m
    ensures Sum(m, measure) == measure(m[k]) + Sum(m - {k}, measure)
    decreases |m|
  {
    var first :| first in m && Sum(m, measure) == measure(m[first]) + Sum(m - {first}, measure);
    if first != k {
      var rest := m - {first};
      SumWithout(rest, measure, k);
      SumWithout(m - {k}, measure, first);
      assert rest - {k} == m - {k} - {first};
    }
  }

  lemma SumUpdate<K(!new), V>(m: map<K, V>, measure: V -> nat, k: K, v: V)
    requires k in m
    ensures Sum(m[k := v], measure) == Sum(m, measure) - measure(m[k]) + measure(v)
  {
    SumWithout(m, measure, k);
    SumWithout(m[k := v], measure, k);
    assert m[k := v] - {k} == m - {k};
  }

  lemma SumInsert<K(!new), V>(m: map<K, V>, measure: V -> nat, k: K, v: V)
    requires k !in m
    ensures Sum(m[k := v], measure) == Sum(m, measure) + measure(v)
  {
    SumWithout(m[k := v], measure, k);
    assert m[k := v] - {k} == m;
  }

  lemma SumAtLeast<K(!new), V>(m: map<K, V>, measure: V -> nat, k: K, other: K)
    requires k in m && other in m && k != other
    ensures measure(m[k]) + measure(m[other]) <= Sum(m, measure)
  {
    SumWithout(m, measure, k);
    SumWithout(m - {k}, measure, other);
  }

  function AmountOf(a: TokenAccount): nat { a.amount }

  /** All tokens of the mint. */
  ghost function Supply(tokens: map<Addr, TokenAccount>): nat { Sum(tokens, AmountOf) }

  lemma SupplyIs(tokens: map<Addr, TokenAccount>)
    ensures Supply(tokens) == Sum(tokens, AmountOf)
  {
  }

  /**
   While the supply fits 64 bits a transfer only fails for missing accounts or funds, and moves tokens without making
   any.
   */
  lemma TransferConserves(tokens: map<Addr, TokenAccount>, from: Addr, to: Addr, amount: u64)
    requires Supply(tokens) <= U64_MAX
    ensures Transfer(tokens, from, to, amount).Ok? <==> from in tokens && to in tokens && amount <= tokens[from].amount
    ensures Transfer(tokens, from, to, amount).Ok? ==>
      Supply(Transfer(tokens, from, to, amount).value) == Supply(tokens)
  {
    if from in tokens && to in tokens && amount <= tokens[from].amount && from != to {
      SumAtLeast(tokens, AmountOf, from, to);
      var debited := tokens[from := tokens[from].(amount := tokens[from].amount - amount)];
      SumUpdate(tokens, AmountOf, from, debited[from]);
      SumUpdate(debited, AmountOf, to, tokens[to].(amount := tokens[to].amount + amount));
    }
  }
}
