/** IPMI 1.5 authentication enables (LAN configuration parameter 2, section
    23.2 of IPMI v2.0) as ipmi-config commits them: one key at a time into a
    record of 25 bits that the BMC takes or refuses as a whole. */
module LanAuth {
  import opened Common
  import opened ConfigErrors

  const FIELDS: nat := 25

  /** Five levels (callback, user, operator, admin, OEM) of five authentication
      types (none, MD2, MD5, straight password, OEM proprietary), in the order of
      `struct bmc_authentication_level`: field 5 * level + type. */
  type Field = f: nat | f < FIELDS

  /** The nine fields that concern OEM authentication: the proprietary type of the
      first four levels, and all five types of the OEM level. */
  predicate Oem(f: Field) {
    f % 5 == 4 || 20 <= f
  }

  lemma OemFields()
    ensures (set f: Field | Oem(f)) == {4, 9, 14, 19, 20, 21, 22, 23, 24}
  {
    assert forall f: Field :: Oem(f) <==> f in {4, 9, 14, 19, 20, 21, 22, 23, 24};
  }

  type Enables = e: seq<bool> | |e| == FIELDS witness seq(FIELDS, _ => false)

  /** What the user configured: a value for some of the keys. */
  type Section = map<Field, bool>

  /** How the BMC treats the Get and up to two Set commands of a commit. */
  datatype Answers = Answers(fetch: Reply, store: Reply, again: Reply)

  datatype SetResult = Accepted | InvalidData | Failed(err: Err)

  /** `accepts` is the BMC's rule: a record that breaks it is answered with
      completion code 0xCC. */
  class Bmc {
    var enables: Enables
    const accepts: Enables -> bool

    constructor (enables: Enables, accepts: Enables -> bool)
      ensures this.enables == enables && this.accepts == accepts
    {
      this.enables, this.accepts := enables, accepts;
    }

    method SetEnables(record: Enables, r: Reply) returns (result: SetResult)
      modifies this
      ensures result == Outcome(record, r)
      ensures enables == if result.Accepted? then record else old(enables)
    {
      result := Outcome(record, r);
      if result.Accepted? {
        enables := record;
      }
    }

    function Outcome(record: Enables, r: Reply): SetResult {
      if !r.Good? then Failed(ErrOf(r)) else if accepts(record) then Accepted else InvalidData
    }
  }

  // ----- What one commit does -----

  /** The record with the user's OEM settings taken in. */
  function Absorbed(base: Section, e: Enables): (r: Enables) {
    seq(FIELDS, (i: int) requires 0 <= i < FIELDS => if Oem(i) && i in base then base[i] else e[i])
  }

  /** `_set_authentication_type_enables`: `base` is the section literally named
      Lan_Conf_Auth, if there is one, whichever section is being committed. */
  method SetAuthenticationEnables(bmc: Bmc, al: array<bool>, base: Option<Section>, a: Answers)
    returns (err: Err, tries: nat)
    requires al.Length == FIELDS
    modifies bmc, al
    ensures tries <= 2
    ensures var first := old(al[..]);
            if bmc.Outcome(first, a.store).Accepted? then
              err.Success? && bmc.enables == first && tries == 1
            else if bmc.Outcome(first, a.store).InvalidData? && base.Some?
                    && bmc.Outcome(Absorbed(base.value, first), a.again).Accepted? then
              err.Success? && bmc.enables == Absorbed(base.value, first) && tries == 2
            else
              !err.Success? && bmc.enables == old(bmc.enables)
    ensures err.Fatal? <==>
              || a.store.Broken?
              || (a.store.Good? && !bmc.accepts(old(al[..])) && (base.None? || a.again.Broken?))
  {
    ghost var first := al[..];
    var result := bmc.SetEnables(al[..], a.store);
    tries := 1;
    if result.Accepted? {
      return Success, tries;
    }
    if result.Failed? {
      return result.err, tries;
    }
    if base.None? {
      return Fatal, tries;
    }
    var i := 0;
    while i < FIELDS
      invariant 0 <= i <= FIELDS
      invariant forall k :: 0 <= k < i ==> al[k] == Absorbed(base.value, first)[k]
      invariant forall k :: i <= k < FIELDS ==> al[k] == first[k]
      modifies al
    {
      if Oem(i) && i in base.value {
        al[i] := base.value[i];
      }
      i := i + 1;
    }
    assert al[..] == Absorbed(base.value, first);
    result := bmc.SetEnables(al[..], a.again);
    tries := 2;
    err := match result case Accepted => Success case InvalidData => NonFatal case Failed(e) => e;
  }

  /** The record is accepted at once, or refused as invalid and accepted with the
      base section's OEM settings. */
  predicate Succeeds(accepts: Enables -> bool, e: Enables, own: Section, base: Option<Section>, f: Field, a: Answers)
    requires f in own
  {
    var first := e[f := own[f]];
    && a.fetch.Good? && a.store.Good?
    && (accepts(first) || (base.Some? && a.again.Good? && accepts(Absorbed(base.value, first))))
  }

  /** A commit that fails ends in a fatal error if a command broke down, or if the
      record was refused as invalid and there is no base section to turn to. */
  predicate EndsFatally(accepts: Enables -> bool, e: Enables, own: Section, base: Option<Section>, f: Field, a: Answers)
    requires f in own
  {
    || a.fetch.Broken?
    || (a.fetch.Good? && a.store.Broken?)
    || (a.fetch.Good? && a.store.Good? && !accepts(e[f := own[f]]) && (base.None? || a.again.Broken?))
  }

  /** `_authentication_level_commit` of key `f` of section `own`. */
  method Commit(bmc: Bmc, own: Section, base: Option<Section>, f: Field, a: Answers) returns (err: Err)
    requires f in own
    modifies bmc
    ensures !err.Success? ==> bmc.enables == old(bmc.enables)
    ensures err.Success? ==> var first := old(bmc.enables)[f := own[f]];
              bmc.enables == if bmc.accepts(first) || base.None? then first else Absorbed(base.value, first)
    // It succeeds exactly if one of the two records is accepted.
    ensures err.Success? <==> Succeeds(bmc.accepts, old(bmc.enables), own, base, f, a)
    ensures err.Fatal? <==> EndsFatally(bmc.accepts, old(bmc.enables), own, base, f, a)
  {
    if !a.fetch.Good? {
      return ErrOf(a.fetch);
    }
    var al := new bool[FIELDS](i requires 0 <= i < FIELDS reads bmc => bmc.enables[i]);
    al[f] := own[f];
    assert al[..] == bmc.enables[f := own[f]];
    var tries;
    err, tries := SetAuthenticationEnables(bmc, al, base, a);
  }

  // ----- Convergence -----

  function Disagreement(s: Section, e: Enables): set<Field> {
    set f | f in s && e[f] != s[f]
  }

  /** A step a successful commit of `f` can make. */
  predicate Step(own: Section, base: Option<Section>, e: Enables, f: Field, e': Enables) {
    && f in own
    && var first := e[f := own[f]];
       e' == first || (base.Some? && e' == Absorbed(base.value, first))
  }

  /** Committing the base section: only the field itself and OEM fields change,
      each to the user's value, so disagreement shrinks by what was committed. */
  lemma StepConverges(own: Section, e: Enables, f: Field, e': Enables)
    requires Step(own, Some(own), e, f, e')
    ensures Disagreement(own, e') <= Disagreement(own, e) - {f}
    ensures forall i: Field :: e'[i] != e[i] ==> i in own && e'[i] == own[i] && (i == f || Oem(i))
  {
  }

  /** For a section of another channel the retry takes in the base section's
      values.  Disagreement with the section being committed then never grows,
      whatever the BMC holds and whatever key is committed, exactly if the two
      sections agree on every OEM key both configure. */
  lemma ChannelSectionConvergesExactly(own: Section, base: Section)
    ensures (forall e: Enables, f: Field :: f in own ==>
               Disagreement(own, Absorbed(base, e[f := own[f]])) <= Disagreement(own, e))
       <==> (forall k: Field :: Oem(k) && k in base && k in own ==> base[k] == own[k])
  {
    forall k: Field | Oem(k) && k in base && k in own && base[k] != own[k]
      ensures exists e: Enables, f: Field ::
                f in own && !(Disagreement(own, Absorbed(base, e[f := own[f]])) <= Disagreement(own, e))
    {
      var e: Enables := seq(FIELDS, (i: int) requires 0 <= i < FIELDS => if i in own then own[i] else false);
      assert Disagreement(own, e) == {};
      assert k in Disagreement(own, Absorbed(base, e[k := own[k]]));
    }
  }

  /** The record with the user's configuration in force. */
  function Configured(s: Section, e: Enables): Enables {
    seq(FIELDS, (i: int) requires 0 <= i < FIELDS => if i in s then s[i] else e[i])
  }

  /** What any sequence of successful commits of the base section keeps. */
  predicate Between(s: Section, e: Enables, done: seq<Field>, e': Enables) {
    forall i: Field ::
      && (e'[i] == e[i] || (i in s && e'[i] == s[i]))
      && (i in done && i in s ==> e'[i] == s[i])
  }

  lemma StepStaysBetween(s: Section, e: Enables, done: seq<Field>, e': Enables, f: Field, e'': Enables)
    requires Between(s, e, done, e') && Step(s, Some(s), e', f, e'')
    ensures Between(s, e, done + [f], e'')
  {
  }

  // ----- Sequences of commits -----

  /** The record after the commits of `order`; `absorbed` tells which of them took
      in the base section's OEM settings. */
  function After(own: Section, base: Option<Section>, e: Enables, order: seq<Field>, absorbed: seq<bool>): Enables
    requires |absorbed| == |order| && forall f :: f in order ==> f in own
  {
    if order == [] then e
    else
      var n := |order| - 1;
      var first := After(own, base, e, order[..n], absorbed[..n])[order[n] := own[order[n]]];
      if absorbed[n] && base.Some? then Absorbed(base.value, first) else first
  }

  /** A commit absorbs exactly if the BMC refuses the record it sends first. */
  predicate AbsorbsWhenRefused(accepts: Enables -> bool, own: Section, base: Option<Section>, e: Enables,
                               order: seq<Field>, absorbed: seq<bool>)
    requires |absorbed| == |order| && forall f :: f in order ==> f in own
  {
    forall k :: 0 <= k < |order| ==>
      absorbed[k] == !accepts(After(own, base, e, order[..k], absorbed[..k])[order[k] := own[order[k]]])
  }

  lemma OneCommitMore(accepts: Enables -> bool, own: Section, base: Option<Section>, e: Enables,
                      order: seq<Field>, absorbed: seq<bool>, f: Field)
    requires |absorbed| == |order| && (forall i :: i in order ==> i in own) && f in own
    requires AbsorbsWhenRefused(accepts, own, base, e, order, absorbed)
    ensures var first := After(own, base, e, order, absorbed)[f := own[f]]; var more := absorbed + [!accepts(first)];
            && AbsorbsWhenRefused(accepts, own, base, e, order + [f], more)
            && After(own, base, e, order + [f], more) ==
               if accepts(first) || base.None? then first else Absorbed(base.value, first)
  {
    var first := After(own, base, e, order, absorbed)[f := own[f]];
    var order', more := order + [f], absorbed + [!accepts(first)];
    assert order'[..|order|] == order && more[..|order|] == absorbed;
    forall k | 0 <= k < |order|
      ensures more[k] == !accepts(After(own, base, e, order'[..k], more[..k])[order'[k] := own[order'[k]]])
    {
      assert order'[..k] == order[..k] && more[..k] == absorbed[..k];
    }
  }

  /** How many commits there are up to the last one that absorbed. */
  function Through(absorbed: seq<bool>): (n: nat)
    ensures n <= |absorbed|
  {
    if absorbed == [] then 0
    else if absorbed[|absorbed| - 1] then |absorbed|
    else Through(absorbed[..|absorbed| - 1])
  }

  /** The value of a field after commits of any section: the base section's if it
      is an OEM field taken in and not committed since, otherwise the user's if it
      was committed, otherwise what it was. */
  function FinalValue(own: Section, base: Option<Section>, e: Enables, order: seq<Field>, absorbed: seq<bool>,
                      i: Field): bool
    requires |absorbed| == |order| && forall f :: f in order ==> f in own
  {
    var n := Through(absorbed);
    if base.Some? && 0 < n && Oem(i) && i in base.value && i !in order[n..] then base.value[i]
    else if i in order then own[i]
    else e[i]
  }

  lemma {:induction false} FinalRecord(own: Section, base: Option<Section>, e: Enables, order: seq<Field>,
                                       absorbed: seq<bool>, i: Field)
    requires |absorbed| == |order| && forall f :: f in order ==> f in own
    ensures After(own, base, e, order, absorbed)[i] == FinalValue(own, base, e, order, absorbed, i)
    decreases |order|
  {
    if order != [] {
      var n := |order| - 1;
      FinalRecord(own, base, e, order[..n], absorbed[..n], i);
      assert order == order[..n] + [order[n]];
      if !absorbed[n] {
        var m := Through(absorbed);
        assert order[m..] == order[..n][m..] + [order[n]];
      }
    }
  }

  /** A full order puts the section in force exactly if every OEM key on which the
      two sections differ was committed after the last commit that absorbed. */
  lemma SectionInForceExactly(own: Section, base: Option<Section>, e: Enables, order: seq<Field>, absorbed: seq<bool>)
    requires |absorbed| == |order| && (forall f :: f in order <==> f in own)
    ensures Disagreement(own, After(own, base, e, order, absorbed)) == {} <==>
            forall k: Field :: base.Some? && 0 < Through(absorbed)
                               && Oem(k) && k in own && k in base.value && base.value[k] != own[k]
              ==> k in order[Through(absorbed)..]
  {
    var r := After(own, base, e, order, absorbed);
    forall i: Field
      ensures r[i] == FinalValue(own, base, e, order, absorbed, i)
    {
      FinalRecord(own, base, e, order, absorbed, i);
    }
    forall k: Field | k in own && r[k] != own[k]
      ensures k in Disagreement(own, r)
    {
    }
  }

  lemma {:induction false} AfterStaysBetween(own: Section, e: Enables, order: seq<Field>, absorbed: seq<bool>)
    requires |absorbed| == |order| && forall f :: f in order ==> f in own
    ensures Between(own, e, order, After(own, Some(own), e, order, absorbed))
    decreases |order|
  {
    if order != [] {
      var n := |order| - 1;
      var before := After(own, Some(own), e, order[..n], absorbed[..n]);
      AfterStaysBetween(own, e, order[..n], absorbed[..n]);
      StepStaysBetween(own, e, order[..n], before, order[n], After(own, Some(own), e, order, absorbed));
      assert order == order[..n] + [order[n]];
    }
  }

  /** Commits of the base section converge, and a full order of them ends in one
      and the same state, whatever the order was and however many absorbed. */
  lemma BaseConverges(own: Section, base: Option<Section>, e: Enables, order: seq<Field>, absorbed: seq<bool>)
    requires |absorbed| == |order| && forall f :: f in order ==> f in own
    ensures base == Some(own) ==> var r := After(own, base, e, order, absorbed);
              && Between(own, e, order, r)
              && Disagreement(own, r) <= Disagreement(own, e)
              && Disagreement(own, r) !! (set f | f in order)
              && ((forall f :: f in own ==> f in order) ==> r == Configured(own, e))
  {
    if base == Some(own) {
      AfterStaysBetween(own, e, order, absorbed);
      if forall f :: f in own ==> f in order {
        FullOrder(own, e, order, After(own, base, e, order, absorbed));
      }
    }
  }

  /** Committing a section key by key, stopping at the first failure.  `absorbed`
      tells which commits took in the section named Lan_Conf_Auth. */
  method CommitAll(bmc: Bmc, own: Section, base: Option<Section>, order: seq<Field>, answers: seq<Answers>)
    returns (ok: bool, done: nat, ghost absorbed: seq<bool>)
    requires |answers| == |order| && forall f :: f in order ==> f in own
    modifies bmc
    ensures |absorbed| == done <= |order|
    ensures bmc.enables == After(own, base, old(bmc.enables), order[..done], absorbed)
    ensures AbsorbsWhenRefused(bmc.accepts, own, base, old(bmc.enables), order[..done], absorbed)
    ensures if ok then done == |order|
            else done < |order| && !Succeeds(bmc.accepts, bmc.enables, own, base, order[done], answers[done])
    // The base section converges, and a full order of it puts it in force.
    ensures base == Some(own) ==>
              && Disagreement(own, bmc.enables) <= Disagreement(own, old(bmc.enables))
              && Between(own, old(bmc.enables), order[..done], bmc.enables)
              && Disagreement(own, bmc.enables) !! (set f | f in order[..done])
    ensures ok && base == Some(own) && (forall f :: f in own ==> f in order) ==>
              bmc.enables == Configured(own, old(bmc.enables))
  {
    hide EndsFatally;
    hide Succeeds;
    hide Absorbed;
    hide Disagreement;
    hide Between;
    hide Configured;
    ghost var e := bmc.enables;
    absorbed := [];
    var k := 0;
    while k < |order|
      invariant 0 <= k <= |order| && |absorbed| == k
      invariant bmc.enables == After(own, base, e, order[..k], absorbed)
      invariant AbsorbsWhenRefused(bmc.accepts, own, base, e, order[..k], absorbed)
    {
      ghost var before, was := bmc.enables, absorbed;
      var err := Commit(bmc, own, base, order[k], answers[k]);
      if !err.Success? {
        BaseConverges(own, base, e, order[..k], absorbed);
        return false, k, absorbed;
      }
      OneCommitMore(bmc.accepts, own, base, e, order[..k], was, order[k]);
      absorbed := was + [!bmc.accepts(before[order[k] := own[order[k]]])];
      assert order[..k + 1] == order[..k] + [order[k]];
      k := k + 1;
    }
    assert order[..k] == order;
    BaseConverges(own, base, e, order, absorbed);
    ok, done := true, k;
  }

  lemma FullOrder(s: Section, e: Enables, order: seq<Field>, e': Enables)
    requires Between(s, e, order, e') && forall f :: f in s ==> f in order
    ensures e' == Configured(s, e)
  {
    forall i: Field
      ensures e'[i] == Configured(s, e)[i]
    {
    }
  }

  /** Why the retry exists: a BMC that refuses every record with an OEM bit set,
      and came with some set, accepts every commit of a section that turns all
      nine OEM keys off; without the retry none could succeed that leaves an OEM
      bit on. */
  lemma AbsorbingUnsticks(s: Section, e: Enables, f: Field, accepts: Enables -> bool)
    requires f in s && forall k: Field :: Oem(k) ==> k in s && !s[k]
    requires forall r: Enables :: accepts(r) <==> forall k: Field :: Oem(k) ==> !r[k]
    ensures accepts(Absorbed(s, e[f := s[f]]))
    ensures (exists k: Field :: Oem(k) && k != f && e[k]) ==> !accepts(e[f := s[f]])
  {
    var r := Absorbed(s, e[f := s[f]]);
    assert forall k: Field :: Oem(k) ==> !r[k];
  }
}
