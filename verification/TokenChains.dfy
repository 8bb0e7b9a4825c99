/** Chains of refresh tokens, over any set of token keys: each login starts one, each refresh
    extends the chain of the token it consumed. */
module TokenChains {
  import opened Base
  import opened AuthStore

  /** No record appears, disappears or changes, except that some become revoked. */
  predicate OnlyRevokes<K(!new)>(before: map<K, Token>, after: map<K, Token>) {
    && after.Keys == before.Keys
    && forall h :: h in before ==>
         && after[h] == before[h].(revokedAt := after[h].revokedAt)
         && (before[h].revokedAt.Some? ==> after[h] == before[h])
  }

  /** Where a token stands: its position among all minted tokens, the token it was exchanged for,
      and the position of the login that started its chain. */
  datatype Minted<K> = Minted(pos: nat, parent: Option<K>, chain: nat)

  type Ledger<K(==)> = map<K, Minted<K>>

  /** The n-th minted token extends its parent's chain, or starts its own. */
  function Enter<K(!new)>(l: Ledger<K>, n: nat, hash: K, parent: Option<K>): Ledger<K> {
    l[hash := if parent.Some? && parent.value in l then Minted(n, parent, l[parent.value].chain)
      else Minted(n, None, n)]
  }

  /** A parent is the token before its child in their chain; a token without parent starts a chain. */
  predicate Linked<K(!new)>(l: Ledger<K>, h: K)
    requires h in l
  {
    match l[h].parent
    case None => l[h].chain == l[h].pos && forall k :: k in l && l[k].chain == l[h].chain ==> l[h].pos <= l[k].pos
    case Some(p) =>
      && p in l && l[p].pos < l[h].pos && l[p].chain == l[h].chain
      && forall k :: k in l && l[k].chain == l[h].chain ==> l[k].pos <= l[p].pos || l[h].pos <= l[k].pos
  }

  predicate Positions<K(!new)>(l: Ledger<K>, n: nat) {
    && (forall h :: h in l ==> l[h].chain <= l[h].pos < n)
    && (forall h, k :: h in l && k in l && l[h].pos == l[k].pos ==> h == k)
  }

  /** Within a chain all tokens belong to one user, and a token with a later one is revoked. */
  predicate OneSession<K(!new)>(tokens: map<K, Token>, l: Ledger<K>)
    requires l.Keys == tokens.Keys
  {
    forall h, k :: h in l && k in l && l[h].chain == l[k].chain ==>
      tokens[h].userId == tokens[k].userId && (l[h].pos < l[k].pos ==> tokens[h].revokedAt.Some?)
  }

  predicate ChainsInv<K(!new)>(tokens: map<K, Token>, l: Ledger<K>, n: nat) {
    && l.Keys == tokens.Keys
    && Positions(l, n)
    && (forall h :: h in l ==> Linked(l, h))
    && OneSession(tokens, l)
    && (forall h :: h in tokens ==> tokens[h].usedAt.None?)
  }

  lemma RevokingKeepsChains<K(!new)>(before: map<K, Token>, after: map<K, Token>, l: Ledger<K>, n: nat)
    requires ChainsInv(before, l, n) && OnlyRevokes(before, after)
    ensures ChainsInv(after, l, n)
  {
  }

  /** A later token never comes between an older one and its parent. */
  lemma EnterKeepsLink<K(!new)>(l: Ledger<K>, n: nat, hash: K, parent: Option<K>, h: K)
    requires Positions(l, n) && hash !in l && h in l && Linked(l, h)
    ensures Linked(Enter(l, n, hash, parent), h)
  {
    var after := Enter(l, n, hash, parent);
    assert forall k :: k in after ==> k == hash || (k in l && after[k] == l[k]);
    assert after[hash].pos == n;
  }

  /** The newest token heads a new chain, or follows the last token of its parent's. */
  lemma EnterLinks<K(!new)>(l: Ledger<K>, n: nat, hash: K, parent: Option<K>)
    requires Positions(l, n) && hash !in l
    requires parent.Some? ==>
      parent.value in l && forall k :: k in l && l[k].chain == l[parent.value].chain ==> l[k].pos <= l[parent.value].pos
    ensures Linked(Enter(l, n, hash, parent), hash)
  {
    var after := Enter(l, n, hash, parent);
    assert forall k :: k in after ==> k == hash || (k in l && after[k] == l[k]);
  }

  lemma EnterKeepsLinks<K(!new)>(l: Ledger<K>, n: nat, hash: K, parent: Option<K>)
    requires Positions(l, n) && hash !in l && forall h :: h in l ==> Linked(l, h)
    requires parent.Some? ==>
      parent.value in l && forall k :: k in l && l[k].chain == l[parent.value].chain ==> l[k].pos <= l[parent.value].pos
    ensures Positions(Enter(l, n, hash, parent), n + 1)
    ensures forall h :: h in Enter(l, n, hash, parent) ==> Linked(Enter(l, n, hash, parent), h)
  {
    EnterLinks(l, n, hash, parent);
    forall h | h in l ensures Linked(Enter(l, n, hash, parent), h) {
      EnterKeepsLink(l, n, hash, parent, h);
    }
  }

  lemma EnterKeepsSessions<K(!new)>(tokens: map<K, Token>, l: Ledger<K>, n: nat, hash: K, parent: Option<K>, t: Token)
    requires l.Keys == tokens.Keys && Positions(l, n) && OneSession(tokens, l) && hash !in l
    requires parent.Some? ==>
      && parent.value in l && t.userId == tokens[parent.value].userId
      && forall k :: k in l && l[k].chain == l[parent.value].chain ==> tokens[k].revokedAt.Some?
    ensures OneSession(tokens[hash := t], Enter(l, n, hash, parent))
  {
  }

  lemma EnterExtendsChains<K(!new)>(tokens: map<K, Token>, l: Ledger<K>, n: nat, hash: K, parent: Option<K>, t: Token)
    requires ChainsInv(tokens, l, n) && hash !in tokens && t.usedAt.None?
    requires parent.Some? ==>
      && parent.value in l && t.userId == tokens[parent.value].userId
      && forall k :: k in l && l[k].chain == l[parent.value].chain ==>
           tokens[k].revokedAt.Some? && l[k].pos <= l[parent.value].pos
    ensures ChainsInv(tokens[hash := t], Enter(l, n, hash, parent), n + 1)
  {
    EnterKeepsLinks(l, n, hash, parent);
    EnterKeepsSessions(tokens, l, n, hash, parent, t);
    var after, ledger := tokens[hash := t], Enter(l, n, hash, parent);
    assert ledger.Keys == after.Keys;
    assert forall h :: h in after ==> after[h].usedAt.None?;
  }

  /** Exchanging the last, unrevoked token of a chain: it is revoked and a new one follows it. */
  lemma ExchangeExtendsChains<K(!new)>(tokens: map<K, Token>, l: Ledger<K>, n: nat, prev: K, hash: K, t: Token,
                                       now: int)
    requires ChainsInv(tokens, l, n) && hash !in tokens && t.usedAt.None?
    requires prev in tokens && tokens[prev].revokedAt.None? && t.userId == tokens[prev].userId
    ensures ChainsInv(tokens[prev := Revoked(tokens[prev], now)][hash := t], Enter(l, n, hash, Some(prev)), n + 1)
  {
    var revoked := tokens[prev := Revoked(tokens[prev], now)];
    RevokingKeepsChains(tokens, revoked, l, n);
    EnterExtendsChains(revoked, l, n, hash, Some(prev), t);
  }

  // ---------------------------------------------------------------------------------------------
  // The tokens that start a chain

  function Roots<K(!new)>(tokens: map<K, Token>, l: Ledger<K>, u: UserId): set<K> {
    set h | h in tokens && h in l && tokens[h].userId == u && l[h].parent.None?
  }

  lemma RevokingKeepsRoots<K(!new)>(before: map<K, Token>, after: map<K, Token>, l: Ledger<K>, u: UserId)
    requires OnlyRevokes(before, after)
    ensures Roots(after, l, u) == Roots(before, l, u)
  {
  }

  lemma StartingAddsRoot<K(!new)>(tokens: map<K, Token>, l: Ledger<K>, n: nat, hash: K, t: Token)
    requires hash !in tokens && l.Keys == tokens.Keys
    ensures |Roots(tokens[hash := t], Enter(l, n, hash, None), t.userId)| == |Roots(tokens, l, t.userId)| + 1
  {
    var roots := Roots(tokens, l, t.userId);
    assert Roots(tokens[hash := t], Enter(l, n, hash, None), t.userId) == roots + {hash};
  }

  lemma StartingKeepsOtherRoots<K(!new)>(tokens: map<K, Token>, l: Ledger<K>, n: nat, hash: K, t: Token, u: UserId)
    requires hash !in tokens && l.Keys == tokens.Keys && u != t.userId
    ensures Roots(tokens[hash := t], Enter(l, n, hash, None), u) == Roots(tokens, l, u)
  {
  }

  lemma FollowingKeepsRoots<K(!new)>(tokens: map<K, Token>, l: Ledger<K>, n: nat, prev: K, hash: K, t: Token,
                                     now: int, u: UserId)
    requires hash !in tokens && l.Keys == tokens.Keys && prev in tokens
    ensures Roots(tokens[prev := Revoked(tokens[prev], now)][hash := t], Enter(l, n, hash, Some(prev)), u)
         == Roots(tokens, l, u)
  {
  }
}
