/** Icon proposals and cached fragments after every run. */
module RegistryIcons {
  import opened Basics
  import opened RegistryModel
  import opened RegistrySteps
  import Admin = AdminGovernance

  // ---- The icon invariant ----

  /** Stored bytes hash to the recorded hash, exactly the rejected proposals have lost theirs, and exactly the
      decided ones name the action that decided them. */
  predicate ProposalOk(env: Env, p: Proposal, assets: nat) {
    && p.asset < assets
    && (p.image.Some? ==> env.imageHash(p.image.value) == p.hash)
    && (p.image.None? <==> p.status == IconRejected)
    && (p.decidedBy.None? <==> p.status == Pending)
  }

  ghost predicate ProposalsOk(env: Env, proposals: seq<Proposal>, assets: nat) {
    forall i | 0 <= i < |proposals| :: ProposalOk(env, proposals[i], assets)
  }

  ghost predicate OneWaiting(proposals: seq<Proposal>) {
    forall i, j | 0 <= i < j < |proposals| :: !(Waiting(proposals[i], proposals[j].asset) && Waiting(proposals[j], proposals[j].asset))
  }

  /** An active icon is the asset's own visible proposal; a deregistered asset keeps nothing current. */
  ghost predicate IconOk(a: Asset, u: Uuid, proposals: seq<Proposal>) {
    && (a.icon.Some? ==> a.icon.value < |proposals| && Visible(proposals[a.icon.value]) && proposals[a.icon.value].asset == u)
    && (a.status == Deregistered ==>
          a.icon.None? && forall i | 0 <= i < |proposals| && proposals[i].asset == u :: proposals[i].obsoletedBy.Some?)
  }

  ghost predicate IconInv(env: Env, s: Db) {
    && ProposalsOk(env, s.proposals, |s.assets|)
    && OneWaiting(s.proposals)
    && forall u | 0 <= u < |s.assets| :: IconOk(s.assets[u], u, s.proposals)
  }

  // ---- How proposals move ----

  /** Identity is fixed; a decision is final; bytes are dropped only by rejecting; obsolete stays obsolete. */
  predicate Evolves(p: Proposal, p': Proposal) {
    && p'.asset == p.asset && p'.hash == p.hash && p'.proposedBy == p.proposedBy
    && (p'.status == p.status || p.status == Pending)
    && (p'.image == p.image || (p.status == Pending && p'.status == IconRejected))
    && (p.obsoletedBy.Some? ==> p'.obsoletedBy == p.obsoletedBy)
  }

  /** Old proposals evolve, only those of `u` move, and new ones belong to `u`. */
  ghost predicate Touches(ps: seq<Proposal>, ps': seq<Proposal>, u: Uuid) {
    && |ps| <= |ps'|
    && (forall i | 0 <= i < |ps| :: Evolves(ps[i], ps'[i]) && (ps[i].asset != u ==> ps'[i] == ps[i]))
    && (forall i | |ps| <= i < |ps'| :: ps'[i].asset == u)
  }

  /** Only row `u` changed, or was added at the end. */
  ghost predicate RowsExcept(s: Db, s': Db, u: Uuid) {
    && |s.assets| <= |s'.assets| && u < |s'.assets|
    && (|s.assets| < |s'.assets| ==> u == |s.assets| && |s'.assets| == |s.assets| + 1)
    && forall v | 0 <= v < |s.assets| && v != u :: s'.assets[v] == s.assets[v]
  }

  lemma IconsKept(env: Env, s: Db, s': Db, u: Uuid)
    requires IconInv(env, s) && RowsExcept(s, s', u) && Touches(s.proposals, s'.proposals, u)
    requires ProposalsOk(env, s'.proposals, |s'.assets|) && OneWaiting(s'.proposals)
    requires IconOk(s'.assets[u], u, s'.proposals)
    ensures IconInv(env, s')
  {
  }

  // ---- The moves ----

  lemma AppendMoves(env: Env, ps: seq<Proposal>, p: Proposal, assets: nat)
    requires ProposalsOk(env, ps, assets) && OneWaiting(ps) && ProposalOk(env, p, assets)
    requires p.status == Pending && p.obsoletedBy.None? ==> LastProposal(ps, AnyWaiting(p.asset)).None?
    ensures ProposalsOk(env, ps + [p], assets) && OneWaiting(ps + [p]) && Touches(ps, ps + [p], p.asset)
  {
    assert forall i | 0 <= i < |ps| :: ps[i] in ps;
  }

  lemma DecideMoves(env: Env, ps: seq<Proposal>, i: nat, approve: bool, sequence: nat, assets: nat)
    requires ProposalsOk(env, ps, assets) && OneWaiting(ps) && i < |ps| && ps[i].status == Pending
    ensures var ps' := ps[i := Decided(ps[i], approve, sequence)];
            ProposalsOk(env, ps', assets) && OneWaiting(ps') && Touches(ps, ps', ps[i].asset)
  {
  }

  lemma ObsoleteMoves(env: Env, ps: seq<Proposal>, u: Uuid, sequence: nat, assets: nat)
    requires ProposalsOk(env, ps, assets) && OneWaiting(ps)
    ensures var ps' := ObsoleteAll(ps, u, sequence);
            ProposalsOk(env, ps', assets) && OneWaiting(ps') && Touches(ps, ps', u)
  {
  }

  /** Deregistration clears the icon and every proposal. */
  lemma DeregisteredIconOk(a: Asset, u: Uuid, ps: seq<Proposal>, sequence: nat)
    requires a.icon.None?
    ensures IconOk(a, u, ObsoleteAll(ps, u, sequence))
  {
  }

  /** A row that keeps its icon and status keeps a good icon while its own decided proposals stand. */
  lemma SameIconOk(a: Asset, a': Asset, u: Uuid, ps: seq<Proposal>, ps': seq<Proposal>)
    requires IconOk(a, u, ps) && a'.icon == a.icon && a'.status == a.status && a.status == Active
    requires Touches(ps, ps', u)
    requires forall i | 0 <= i < |ps| && Visible(ps[i]) :: ps'[i] == ps[i]
    ensures IconOk(a', u, ps')
  {
  }

  // ---- Fragments ----

  predicate FragmentOk(s: Db, u: Uuid)
    requires u < |s.assets|
  {
    && (s.assets[u].status == Active ==> u in s.fragments)
    && (u in s.fragments ==> s.fragments[u] == FreshFragment(s.assets[u], LogOf(s.log, u), s.proposals))
  }

  /** Every cached fragment is what serialising its asset now would give, and active assets have one. */
  ghost predicate FragmentInv(s: Db) {
    && (forall u | u in s.fragments :: u < |s.assets|)
    && forall u | 0 <= u < |s.assets| :: FragmentOk(s, u)
  }

  ghost predicate FragmentsExcept(s: Db, s': Db, u: Uuid) {
    forall v: nat | v != u :: (v in s'.fragments <==> v in s.fragments) && (v in s.fragments ==> s'.fragments[v] == s.fragments[v])
  }

  /** Another asset's serialisation does not move: its icon is its own. */
  lemma OtherFragmentFresh(env: Env, s: Db, s': Db, u: Uuid, v: Uuid)
    requires v < |s.assets| && IconOk(s.assets[v], v, s.proposals) && v != u
    requires Touches(s.proposals, s'.proposals, u) && RowsExcept(s, s', u)
    requires LogOf(s'.log, v) == LogOf(s.log, v)
    ensures FreshFragment(s'.assets[v], LogOf(s'.log, v), s'.proposals)
         == FreshFragment(s.assets[v], LogOf(s.log, v), s.proposals)
  {
  }

  lemma FragmentsKept(env: Env, s: Db, s': Db, u: Uuid)
    requires FragmentInv(s) && IconInv(env, s) && RowsExcept(s, s', u) && Touches(s.proposals, s'.proposals, u)
    requires forall v: nat | v != u :: LogOf(s'.log, v) == LogOf(s.log, v)
    requires FragmentsExcept(s, s', u) && FragmentOk(s', u)
    ensures FragmentInv(s')
  {
    forall v | 0 <= v < |s'.assets| && v != u
      ensures FragmentOk(s', v)
    {
      assert FragmentOk(s, v) && IconOk(s.assets[v], v, s.proposals);
      OtherFragmentFresh(env, s, s', u, v);
    }
  }
}
