/** RMCP+ cipher suite privileges (LAN configuration parameters 22 to 24,
    section 23.2 of IPMI v2.0) as ipmi-config reads, caches and commits them.

    The BMC accepts only the whole record of sixteen privileges, so a commit of
    one of them writes the cached values of the others; some BMCs do not return
    every slot, and the cache marks those with 0xFF. */
module CipherPrivileges {
  import opened Common
  import opened ConfigErrors

  const LEN: nat := 16
  const NOT_READABLE: byte := 0xFF
  const UNSPECIFIED: byte := 0

  /** One LAN channel of the BMC.  `ids` is what the cipher suite entries command
      returns, `readable` the slots the privilege levels command returns. */
  datatype Channel = Channel(entryCount: nat, ids: seq<byte>, readable: set<nat>, privs: seq<byte>)

  /** Privileges are four bits wide. */
  predicate ValidPrivs(p: seq<byte>) {
    |p| == LEN && forall i :: 0 <= i < LEN ==> p[i] < 16
  }

  predicate ValidChannel(c: Channel) {
    ValidPrivs(c.privs)
  }

  /** The section of the user's configuration: a privilege for some of the ids.
      `rmcpplus_priv_number_validate` lets no other value through. */
  type Section = map<nat, byte>

  predicate ValidSection(s: Section) {
    forall i :: i in s ==> i < LEN && s[i] < 16
  }

  /** How the four commands of an operation are answered, and at which field,
      if any, `fiid_obj_get` fails for a reason other than missing data. */
  datatype Answers = Answers(count: Reply, ids: Reply, privs: Reply, store: Reply, idsBroken: nat, privsBroken: nat)

  /** Every command works and every response can be read. */
  predicate Cooperative(a: Answers) {
    a.count.Good? && a.ids.Good? && a.privs.Good? && a.store.Good? && a.idsBroken >= LEN && a.privsBroken >= LEN
  }

  // ----- What loading the cache yields -----

  function Count(c: Channel): nat {
    if c.entryCount > LEN then LEN else c.entryCount
  }

  /** Which cipher suites the BMC supports: those among its first entries.  Some
      BMC numbers sixteen suites from 1 instead of from 0. */
  predicate Supports(c: Channel, id: int)
    requires Count(c) <= |c.ids|
  {
    if LEN <= c.entryCount && (forall k :: 0 <= k < LEN ==> c.ids[k] == k + 1) then 0 <= id < LEN
    else exists k :: 0 <= k < c.entryCount && k < LEN && c.ids[k] == id
  }

  /** The supported suites in whatever order. */
  predicate Lists(ids: seq<byte>, c: Channel)
    requires Count(c) <= |c.ids|
  {
    forall id: byte :: id in ids <==> Supports(c, id)
  }

  function LoadedSlot(c: Channel, i: nat): byte
    requires ValidChannel(c) && i < LEN && Count(c) <= |c.ids|
  {
    if i in c.readable then c.privs[i]
    else if Supports(c, i) then NOT_READABLE
    else UNSPECIFIED
  }

  /** The cached privileges after a successful load: with no entries reported
      the privilege levels are not even read. */
  function Loaded(c: Channel): (p: seq<byte>)
    requires ValidChannel(c) && Count(c) <= |c.ids|
    ensures |p| == LEN
  {
    if c.entryCount == 0 then Zeros(LEN)
    else seq(LEN, (i: int) requires 0 <= i < LEN => LoadedSlot(c, i))
  }

  /** A cached privilege is the value the BMC stores, or the not-readable mark of
      a slot the BMC supports but does not return, or UNSPECIFIED for a slot it
      neither returns nor supports. */
  predicate Faithful(v: byte, c: Channel, i: nat)
    requires ValidChannel(c) && i < LEN && Count(c) <= |c.ids|
  {
    || v == c.privs[i]
    || (i !in c.readable && v == if Supports(c, i) then NOT_READABLE else UNSPECIFIED)
  }

  /** How the set-up of a cache that is not in use yet ends. */
  predicate LoadEnds(c: Channel, a: Answers, err: Err) {
    var asked := c.entryCount != 0;
    var listed := a.ids.Good? && Count(c) <= |c.ids| && Count(c) <= a.idsBroken;
    && (err.Success? <==> a.count.Good? && (asked ==> listed && a.privs.Good? && LEN <= a.privsBroken))
    && (err.NonFatal? <==>
          a.count.Refused? || (a.count.Good? && asked && (a.ids.Refused? || (listed && a.privs.Refused?))))
  }

  // ----- What a commit sends -----

  /** The slots for which the section has to supply a value are there. */
  predicate Complete(section: Section, cache: seq<byte>, id: nat)
    requires |cache| == LEN
  {
    forall i :: 0 <= i < LEN && i != id && cache[i] == NOT_READABLE ==> i in section
  }

  function Record(section: Section, cache: seq<byte>, id: nat): (r: seq<byte>)
    requires |cache| == LEN && id in section && Complete(section, cache, id)
    ensures |r| == LEN
  {
    seq(LEN, (i: int) requires 0 <= i < LEN =>
      if i == id || cache[i] == NOT_READABLE then section[i] else cache[i])
  }

  /** Ids as reported, or counted from 0 if they were counted from 1. */
  lemma IdsAreListed(c: Channel, ids: seq<byte>)
    requires |ids| == Count(c) <= |c.ids|
    requires if LEN <= c.entryCount && (forall k :: 0 <= k < LEN ==> c.ids[k] == k + 1)
             then forall k :: 0 <= k < LEN ==> ids[k] == k
             else forall k :: 0 <= k < |ids| ==> ids[k] == c.ids[k]
    ensures Lists(ids, c)
  {
    forall id: byte
      ensures id in ids <==> Supports(c, id)
    {
      if Supports(c, id) && id < |ids| && ids[id] == id {
        assert id in ids;
      }
    }
  }

  lemma LoadedIsFaithful(c: Channel)
    requires ValidChannel(c) && Count(c) <= |c.ids|
    ensures 0 < c.entryCount ==> forall i :: 0 <= i < LEN ==> Faithful(Loaded(c)[i], c, i)
  {
  }

  /** Whatever faithful cache a record is made from, and also from the zeros of a
      BMC without entries, it holds privileges only and never the mark. */
  lemma RecordIsValid(section: Section, c: Channel, cache: seq<byte>, id: nat)
    requires ValidChannel(c) && ValidSection(section) && Count(c) <= |c.ids| && |cache| == LEN
    requires cache == Zeros(LEN) || forall i :: 0 <= i < LEN ==> Faithful(cache[i], c, i)
    requires id in section && Complete(section, cache, id)
    ensures ValidPrivs(Record(section, cache, id))
  {
  }

  /** The channel that stores the record just made keeps the cache faithful. */
  lemma CommitKeepsFaithful(section: Section, c: Channel, cache: seq<byte>, id: nat)
    requires ValidChannel(c) && ValidSection(section) && Count(c) <= |c.ids| && |cache| == LEN
    requires forall i :: 0 <= i < LEN ==> Faithful(cache[i], c, i)
    requires id in section && Complete(section, cache, id) && ValidPrivs(Record(section, cache, id))
    ensures var d, next := c.(privs := Record(section, cache, id)), cache[id := section[id]];
            forall i :: 0 <= i < LEN ==> Faithful(next[i], d, i)
  {
  }

  // ----- What a whole section leaves behind -----

  /** The cache after the ids in `done` were committed, starting from `cache`.
      With no entries reported it is thrown away before every commit. */
  function CacheAfter(section: Section, cache: seq<byte>, done: seq<nat>, zero: bool): (r: seq<byte>)
    requires |cache| == LEN && forall i :: i in done ==> i in section
    ensures |r| == LEN
  {
    if zero then Zeros(LEN)
    else seq(LEN, (i: int) requires 0 <= i < LEN => if i in done then section[i] else cache[i])
  }

  /** Every commit of the order finds the values it needs. */
  predicate CompleteOrder(section: Section, cache: seq<byte>, order: seq<nat>, zero: bool)
    requires |cache| == LEN && forall i :: i in order ==> i in section
  {
    forall k :: 0 <= k < |order| ==> Complete(section, CacheAfter(section, cache, order[..k], zero), order[k])
  }

  /** The record the BMC holds after all commits of the order succeeded: the one
      sent last. */
  function Final(section: Section, cache: seq<byte>, order: seq<nat>, zero: bool): (r: seq<byte>)
    requires |cache| == LEN && order != [] && forall i :: i in order ==> i in section
    requires CompleteOrder(section, cache, order, zero)
    ensures |r| == LEN
  {
    var n := |order| - 1;
    Record(section, CacheAfter(section, cache, order[..n], zero), order[n])
  }

  /** When the BMC reports entries, committing ids in any order, with
      repetitions, ends with each of them at its configured privilege; a slot
      that cannot be read gets its configured privilege too, and every other slot
      gets its cached one back. */
  lemma CommitsReachConfiguration(section: Section, cache: seq<byte>, order: seq<nat>)
    requires |cache| == LEN && ValidSection(section) && order != [] && forall i :: i in order ==> i in section
    requires CompleteOrder(section, cache, order, false)
    ensures var f := Final(section, cache, order, false);
            forall i :: 0 <= i < LEN ==>
              f[i] == if i in order || cache[i] == NOT_READABLE then section[i] else cache[i]
    ensures forall i :: 0 <= i < LEN && i !in order && cache[i] == NOT_READABLE ==> i in section
  {
    var n := |order| - 1;
    assert order == order[..n] + [order[n]];
    assert Complete(section, CacheAfter(section, cache, order[..n], false), order[n]);
  }

  /** In terms of the BMC: committed ids end at their configured privileges and
      readable slots outside the order keep the value the BMC stored. */
  lemma SectionReached(section: Section, c: Channel, cache: seq<byte>, order: seq<nat>)
    requires ValidChannel(c) && Count(c) <= |c.ids| && |cache| == LEN && ValidSection(section)
    requires forall i :: 0 <= i < LEN ==> Faithful(cache[i], c, i)
    requires order != [] && (forall i :: i in order ==> i in section) && CompleteOrder(section, cache, order, false)
    ensures var f := Final(section, cache, order, false);
            forall i :: 0 <= i < LEN ==>
              && (i in order ==> f[i] == section[i])
              && (i !in order && i in c.readable ==> f[i] == c.privs[i])
  {
    CommitsReachConfiguration(section, cache, order);
  }

  /** Hence the order does not matter. */
  lemma OrderDoesNotMatter(section: Section, cache: seq<byte>, one: seq<nat>, other: seq<nat>)
    requires |cache| == LEN && ValidSection(section) && one != [] && other != []
    requires forall i :: i in one ==> i in section
    requires forall i :: i in one <==> i in other
    requires CompleteOrder(section, cache, one, false) && CompleteOrder(section, cache, other, false)
    ensures Final(section, cache, one, false) == Final(section, cache, other, false)
  {
    CommitsReachConfiguration(section, cache, one);
    CommitsReachConfiguration(section, cache, other);
  }

  /** When the BMC reports no entries the section is not reached in general: all
      slots but the one committed last end UNSPECIFIED, whatever they were.  The
      configured ids then end at their privileges exactly if every other one was
      to be UNSPECIFIED anyway, and a slot outside the section keeps its value
      exactly if that was UNSPECIFIED. */
  lemma NoEntriesWipeTheRest(section: Section, stored: seq<byte>, order: seq<nat>)
    requires |stored| == LEN && ValidSection(section) && order != [] && forall i :: i in order ==> i in section
    requires CompleteOrder(section, Zeros(LEN), order, true)
    ensures var f, final := Final(section, Zeros(LEN), order, true), order[|order| - 1];
            && final in section && final < LEN && f == Zeros(LEN)[final := section[final]]
            && ((forall i :: 0 <= i < LEN && i in order ==> f[i] == section[i])
                <==> (forall i :: 0 <= i < LEN && i in order && i != final ==> section[i] == UNSPECIFIED))
            && (forall i :: 0 <= i < LEN && i !in order ==> (f[i] == stored[i] <==> stored[i] == UNSPECIFIED))
  {
    var f, final := Final(section, Zeros(LEN), order, true), order[|order| - 1];
    assert final in order;
    assert f == Zeros(LEN)[final := section[final]];
    assert forall i :: 0 <= i < LEN && i != final ==> f[i] == UNSPECIFIED;
  }

  class Bmc {
    var channels: map<nat, Channel>

    predicate Valid()
      reads this
    {
      forall n :: n in channels ==> ValidChannel(channels[n])
    }

    /** The not-readable mark is never sent: no caller could otherwise meet the
        precondition. */
    method SetPrivileges(channel: nat, record: seq<byte>, reply: Reply) returns (r: Reply)
      requires Valid() && ValidPrivs(record)
      modifies this
      ensures Valid()
      ensures r == if channel in old(channels) then reply else Broken
      ensures channels == if r.Good? then old(channels)[channel := old(channels)[channel].(privs := record)]
                          else old(channels)
    {
      r := if channel in channels then reply else Broken;
      if r.Good? {
        channels := channels[channel := channels[channel].(privs := record)];
      }
    }
  }

  /** The cipher suite fields of `ipmi_config_state_data_t`. */
  class State {
    var entryCount: nat
    var entryCountSet: bool
    var idSupportedSet: bool
    var privSet: bool
    var channel: nat
    const idSupported: array<byte>
    const priv: array<byte>

    constructor ()
      ensures Shape() && !InUse() && fresh(idSupported) && fresh(priv)
    {
      entryCount, entryCountSet, idSupportedSet, privSet, channel := 0, false, false, false, 0;
      idSupported := new byte[LEN](_ => 0);
      priv := new byte[LEN](_ => 0);
    }

    predicate Shape()
      reads this
    {
      idSupported != priv && idSupported.Length == LEN && priv.Length == LEN && entryCount <= LEN
    }

    predicate InUse()
      reads this
    {
      entryCountSet && idSupportedSet && privSet
    }

    /** The cache in use belongs to the current channel and is faithful to it. */
    predicate Coherent(bmc: Bmc)
      reads this, idSupported, priv, bmc
    {
      && Shape() && bmc.Valid()
      && (InUse() ==>
            && channel in bmc.channels
            && var c := bmc.channels[channel];
               && 0 < c.entryCount && entryCount == Count(c) <= |c.ids|
               && Lists(idSupported[..entryCount], c)
               && forall i :: 0 <= i < LEN ==> Faithful(priv[i], c, i))
    }

    /** What the cache holds once set up for a channel. */
    predicate SetUpFor(bmc: Bmc, ch: nat)
      reads this, idSupported, priv, bmc
    {
      && Coherent(bmc) && ch in bmc.channels && channel == ch
      && var c := bmc.channels[ch];
         && entryCount == Count(c) <= |c.ids|
         && (InUse() <==> 0 < c.entryCount)
         && (c.entryCount == 0 ==> priv[..] == Zeros(LEN))
    }

    /** The entries of the response, as they come. */
    method ReadIds(c: Channel, broken: nat) returns (ok: bool)
      requires Shape() && entryCount == Count(c)
      modifies idSupported
      ensures ok <==> entryCount <= |c.ids| && entryCount <= broken
      ensures ok ==> forall k :: 0 <= k < entryCount ==> idSupported[k] == c.ids[k]
    {
      var i := 0;
      while i < entryCount
        invariant 0 <= i <= entryCount && i <= |c.ids| && i <= broken
        invariant forall k :: 0 <= k < i ==> idSupported[k] == c.ids[k]
      {
        if i >= |c.ids| || i == broken {
          return false;
        }
        idSupported[i] := c.ids[i];
        i := i + 1;
      }
      ok := true;
    }

    method LoadIds(c: Channel, broken: nat) returns (ok: bool)
      requires Shape() && entryCount == Count(c)
      modifies idSupported
      ensures ok <==> entryCount <= |c.ids| && entryCount <= broken
      ensures ok ==> Lists(idSupported[..entryCount], c)
    {
      ok := ReadIds(c, broken);
      if ok && entryCount == LEN {
        var notFound := false;
        var i := 0;
        while i < entryCount && !notFound
          invariant 0 <= i <= entryCount
          invariant notFound ==> exists k :: 0 <= k < LEN && c.ids[k] != k + 1
          invariant !notFound ==> forall k :: 0 <= k < i ==> c.ids[k] == k + 1
          decreases entryCount - i, !notFound
        {
          if idSupported[i] as int != i + 1 {
            notFound := true;
          } else {
            i := i + 1;
          }
        }
        if !notFound {
          i := 0;
          while i < entryCount
            invariant 0 <= i <= entryCount
            invariant forall k :: 0 <= k < i ==> idSupported[k] == k
            invariant forall k :: i <= k < entryCount ==> idSupported[k] == k + 1
          {
            idSupported[i] := idSupported[i] - 1;
            i := i + 1;
          }
        }
      }
      if ok {
        IdsAreListed(c, idSupported[..entryCount]);
      }
    }

    method LoadPrivs(c: Channel, broken: nat) returns (ok: bool)
      requires Shape() && ValidChannel(c) && 0 < entryCount == Count(c) <= |c.ids|
      requires Lists(idSupported[..entryCount], c)
      modifies priv
      ensures ok <==> LEN <= broken
      ensures ok ==> priv[..] == Loaded(c)
    {
      var i := 0;
      while i < LEN
        invariant 0 <= i <= LEN && i <= broken
        invariant forall k :: 0 <= k < i ==> priv[k] == LoadedSlot(c, k)
      {
        if i == broken {
          return false;
        }
        var val: byte;
        if i in c.readable {
          val := c.privs[i];
        } else {
          var idFound, j := false, 0;
          while j < entryCount && !idFound
            invariant 0 <= j <= entryCount
            invariant idFound ==> j < entryCount && idSupported[j] as int == i
            invariant forall k :: 0 <= k < j ==> idSupported[k] as int != i
            decreases entryCount - j, !idFound
          {
            if idSupported[j] as int == i {
              idFound := true;
            } else {
              j := j + 1;
            }
          }
          val := if idFound then NOT_READABLE else UNSPECIFIED;
        }
        priv[i] := val;
        i := i + 1;
      }
      ok := true;
    }

    /** The cached privileges an operation on the channel will work with, if its
        set-up succeeds. */
    ghost function Effective(bmc: Bmc, ch: nat): (e: seq<byte>)
      requires Coherent(bmc)
      reads this, idSupported, priv, bmc
      ensures |e| == LEN
    {
      if InUse() && channel == ch then priv[..]
      else if ch in bmc.channels && Count(bmc.channels[ch]) <= |bmc.channels[ch].ids| then Loaded(bmc.channels[ch])
      else Zeros(LEN)
    }

    /** The cache is emptied and claimed for a channel. */
    method ClearCache(ch: nat)
      requires Shape()
      modifies this, idSupported, priv
      ensures Shape() && entryCount == 0 && !entryCountSet && !idSupportedSet && !privSet && channel == ch
      ensures priv[..] == Zeros(LEN)
    {
      entryCount, entryCountSet, idSupportedSet, privSet, channel := 0, false, false, false, ch;
      var i := 0;
      while i < LEN
        invariant 0 <= i <= LEN
        invariant forall k :: 0 <= k < i ==> idSupported[k] == 0 && priv[k] == 0
        modifies idSupported, priv
      {
        idSupported[i], priv[i] := 0, 0;
        i := i + 1;
      }
    }

    /** The three Get commands.  A failure part way leaves the cache not in use. */
    method Load(c: Channel, a: Answers) returns (err: Err)
      requires Shape() && ValidChannel(c) && priv[..] == Zeros(LEN)
      requires entryCount == 0 && !entryCountSet && !idSupportedSet && !privSet
      modifies this, idSupported, priv
      ensures Shape() && channel == old(channel)
      ensures !err.Success? ==> !InUse()
      ensures LoadEnds(c, a, err)
      ensures err.Success? ==>
                && entryCount == Count(c) <= |c.ids| && (InUse() <==> 0 < c.entryCount)
                && (InUse() ==> Lists(idSupported[..entryCount], c))
                && priv[..] == Loaded(c)
    {
      if !a.count.Good? {
        return ErrOf(a.count);
      }
      entryCount := if c.entryCount > LEN then LEN else c.entryCount;
      entryCountSet := true;
      if entryCount != 0 {
        if !a.ids.Good? {
          return ErrOf(a.ids);
        }
        var ok := LoadIds(c, a.idsBroken);
        if !ok {
          return Fatal;
        }
        idSupportedSet := true;
        if !a.privs.Good? {
          return ErrOf(a.privs);
        }
        ok := LoadPrivs(c, a.privsBroken);
        if !ok {
          return Fatal;
        }
        privSet := true;
      }
      err := Success;
    }

    predicate Loadable(bmc: Bmc, ch: nat)
      reads bmc
    {
      ch in bmc.channels && Count(bmc.channels[ch]) <= |bmc.channels[ch].ids|
    }

    /** How the set-up for a channel ends. */
    predicate SetupEnds(bmc: Bmc, ch: nat, a: Answers, err: Err)
      reads this, bmc
    {
      if InUse() && channel == ch then err.Success?
      else if ch in bmc.channels then LoadEnds(bmc.channels[ch], a, err)
      else err.Fatal?
    }

    lemma EffectiveIsFaithful(bmc: Bmc, ch: nat)
      requires Coherent(bmc)
      ensures ch in bmc.channels && Count(bmc.channels[ch]) <= |bmc.channels[ch].ids|
              && 0 < bmc.channels[ch].entryCount ==>
                var e := Effective(bmc, ch);
                forall i :: 0 <= i < LEN ==> Faithful(e[i], bmc.channels[ch], i)
    {
      if ch in bmc.channels && Count(bmc.channels[ch]) <= |bmc.channels[ch].ids| {
        LoadedIsFaithful(bmc.channels[ch]);
      }
    }

    /** `_rmcpplus_cipher_suite_id_privilege_setup` */
    method Setup(bmc: Bmc, ch: nat, a: Answers) returns (err: Err)
      requires Coherent(bmc)
      modifies this, idSupported, priv
      ensures Coherent(bmc)
      ensures err.Success? ==> SetUpFor(bmc, ch) && priv[..] == old(Effective(bmc, ch))
      ensures old(SetupEnds(bmc, ch, a, err))
      ensures Loadable(bmc, ch) && Cooperative(a) ==> err.Success?
    {
      if entryCountSet && idSupportedSet && privSet && channel == ch {
        return Success;
      }
      ClearCache(ch);
      if ch !in bmc.channels {
        return Fatal;
      }
      err := Load(bmc.channels[ch], a);
      if err.Success? {
        LoadedIsFaithful(bmc.channels[ch]);
        assert forall i :: 0 <= i < LEN ==> priv[i] == priv[..][i];
      }
    }

    /** `id_checkout`: the privilege shown, `None` for the empty string that
        stands for a slot that cannot be read. */
    method Checkout(bmc: Bmc, ch: nat, id: nat, a: Answers) returns (err: Err, shown: Option<byte>, ghost ready: bool)
      requires Coherent(bmc) && id < LEN
      modifies this, idSupported, priv
      ensures Coherent(bmc)
      ensures bmc.channels == old(bmc.channels)
      ensures (err.Success? ==> ready) && (Loadable(bmc, ch) && Cooperative(a) ==> ready)
      ensures old(SetupEnds(bmc, ch, a, if ready then Success else err))
      ensures ready ==>
                && ch in bmc.channels && var c, e := bmc.channels[ch], old(Effective(bmc, ch));
                && Count(c) <= |c.ids|
                && err == (if Supports(c, id) then Success else NonFatal)
                && (err.Success? ==>
                      && shown == (if e[id] == NOT_READABLE then None else Some(e[id]))
                      && (shown.Some? ==> shown.value == c.privs[id])
                      && (shown.None? ==> id !in c.readable))
                // A suite that can be read is shown with what the BMC stores,
                // the first one of a BMC that counts from 1 included.
                && (Supports(c, id) && id in c.readable ==> err.Success? && shown == Some(c.privs[id]))
    {
      shown := None;
      err := Setup(bmc, ch, a);
      ready := err.Success?;
      if err != Success {
        return;
      }
      var i := 0;
      while i < entryCount
        invariant 0 <= i <= entryCount
        invariant forall k :: 0 <= k < i ==> idSupported[k] as int != id
      {
        if idSupported[i] as int == id {
          assert idSupported[..entryCount][i] == idSupported[i];
          if priv[id] != NOT_READABLE {
            shown := Some(priv[id]);
          }
          return Success, shown, ready;
        }
        i := i + 1;
      }
      err := NonFatal;
    }

    /** `id_commit` of a key of the section.  `ready` tells whether the set-up
        succeeded. */
    method Commit(bmc: Bmc, ch: nat, section: Section, id: nat, a: Answers) returns (err: Err, ghost ready: bool)
      requires Coherent(bmc) && ValidSection(section) && id in section
      modifies this, idSupported, priv, bmc
      ensures Coherent(bmc)
      ensures !err.Success? ==> bmc.channels == old(bmc.channels)
      ensures old(Loadable(bmc, ch)) && Cooperative(a) ==> ready
      ensures old(SetupEnds(bmc, ch, a, if ready then Success else err))
      ensures var e := old(Effective(bmc, ch));
              && (ready && !Complete(section, e, id) ==> err.NonFatal?)
              && (ready && Complete(section, e, id) ==> AnsweredAs(a.store, err))
              && (!ready ==> !err.Success?)
              && (err.Success? ==>
                    && ch in old(bmc.channels) && Count(old(bmc.channels)[ch]) <= |old(bmc.channels)[ch].ids|
                    && Complete(section, e, id)
                    && bmc.channels == old(bmc.channels)[ch := old(bmc.channels)[ch].(privs := Record(section, e, id))]
                    && bmc.channels[ch].entryCount == old(bmc.channels)[ch].entryCount
                    && (0 < bmc.channels[ch].entryCount ==>
                          InUse() && channel == ch && priv[..] == e[id := section[id]])
                    && (bmc.channels[ch].entryCount == 0 ==> !InUse() && e == Zeros(LEN)))
    {
      ghost var e := Effective(bmc, ch);
      ready := false;
      err := Setup(bmc, ch, a);
      if err != Success {
        return;
      }
      ready := true;
      var privs, ok := FillIn(section, id);
      assert e == priv[..];
      if !ok {
        return NonFatal, ready;
      }
      RecordIsValid(section, bmc.channels[ch], e, id);
      var reply := bmc.SetPrivileges(ch, privs[..], a.store);
      if !reply.Good? {
        return ErrOf(reply), ready;
      }
      ghost var c := old(bmc.channels)[ch];
      if 0 < c.entryCount {
        CommitKeepsFaithful(section, c, e, id);
      }
      priv[id] := section[id];
      assert priv[..] == e[id := section[id]];
    }

    /** The record to send: the cached privileges with the new one and, for the
        slots that cannot be read, the ones the user configured. */
    method FillIn(section: Section, id: nat) returns (privs: array<byte>, ok: bool)
      requires Shape() && ValidSection(section) && id in section
      ensures fresh(privs) && privs.Length == LEN
      ensures ok <==> Complete(section, priv[..], id)
      ensures ok ==> privs[..] == Record(section, priv[..], id)
    {
      privs := new byte[LEN](i requires 0 <= i < LEN && priv.Length == LEN reads priv => priv[i]);
      privs[id] := section[id];
      var i := 0;
      while i < LEN
        invariant 0 <= i <= LEN
        invariant forall k :: 0 <= k < i && k != id && priv[k] == NOT_READABLE ==> k in section
        invariant forall k :: 0 <= k < i ==>
                    privs[k] == if k == id || priv[k] == NOT_READABLE then section[k] else priv[k]
        invariant forall k :: i <= k < LEN ==> privs[k] == if k == id then section[k] else priv[k]
        modifies privs
      {
        if privs[i] == NOT_READABLE {
          if i in section {
            privs[i] := section[i];
          } else {
            assert priv[..][i] == NOT_READABLE;
            return privs, false;
          }
        }
        i := i + 1;
      }
      ok := true;
    }
  }

  // ----- Sequences of operations -----

  datatype Operation =
    | CheckoutKey(ch: nat, id: nat, a: Answers)
    | CommitKey(ch: nat, section: Section, id: nat, a: Answers)

  predicate ValidOperation(o: Operation) {
    match o
    case CheckoutKey(_, id, _) => id < LEN
    case CommitKey(_, section, id, _) => ValidSection(section) && id in section
  }

  /** Every interleaving of checkouts and commits on any channels, with set-ups
      that fail anywhere, keeps the cache coherent. */
  method RunOperations(st: State, bmc: Bmc, ops: seq<Operation>)
    requires st.Coherent(bmc) && forall i :: 0 <= i < |ops| ==> ValidOperation(ops[i])
    modifies st, st.idSupported, st.priv, bmc
    ensures st.Coherent(bmc)
  {
    for i := 0 to |ops|
      invariant st.Coherent(bmc)
    {
      match ops[i] {
        case CheckoutKey(ch, id, a) =>
          var err, shown;
          ghost var ready;
          err, shown, ready := st.Checkout(bmc, ch, id, a);
        case CommitKey(ch, section, id, a) =>
          var err;
          ghost var ready;
          err, ready := st.Commit(bmc, ch, section, id, a);
      }
    }
  }

  /** Where the commits of `done` lead from channels `before` and the effective
      cache `e`: the channels `now` and the effective cache `cache`. */
  predicate Reached(section: Section, e: seq<byte>, before: map<nat, Channel>, ch: nat, done: seq<nat>,
                    now: map<nat, Channel>, cache: seq<byte>)
    requires |e| == LEN && forall i :: i in done ==> i in section
  {
    if done == [] then now == before && cache == e
    else
      && ch in before
      && var c := before[ch];
         && Count(c) <= |c.ids| && CompleteOrder(section, e, done, c.entryCount == 0)
         && now == before[ch := c.(privs := Final(section, e, done, c.entryCount == 0))]
         && cache == CacheAfter(section, e, done, c.entryCount == 0)
         && (c.entryCount == 0 ==> e == Zeros(LEN))
  }

  lemma ReachedStep(section: Section, e: seq<byte>, before: map<nat, Channel>, ch: nat, done: seq<nat>,
                    now: map<nat, Channel>, cache: seq<byte>, id: nat, cache': seq<byte>)
    requires |e| == LEN && |cache| == LEN && ValidSection(section)
    requires id in section && forall i :: i in done ==> i in section
    requires Reached(section, e, before, ch, done, now, cache)
    requires ch in now && Count(now[ch]) <= |now[ch].ids| && Complete(section, cache, id)
    requires if now[ch].entryCount == 0 then cache == cache' == Zeros(LEN) else cache' == cache[id := section[id]]
    ensures var next := now[ch := now[ch].(privs := Record(section, cache, id))];
            Reached(section, e, before, ch, done + [id], next, cache')
  {
    var c, zero := before[ch], before[ch].entryCount == 0;
    if done == [] {
      assert e == CacheAfter(section, e, done, zero);
    }
    OneCommitMore(section, e, done, id, zero);
    var record := Record(section, cache, id);
    assert now[ch := now[ch].(privs := record)] == before[ch := c.(privs := record)];
  }

  /** The commits of a section one after the other, stopping at the first that
      fails.  If all succeed the channel holds `Final`, which for a BMC with
      entries is what the user asked for; no other channel is touched. */
  method CommitAll(st: State, bmc: Bmc, ch: nat, section: Section, order: seq<nat>, answers: seq<Answers>)
    returns (ok: bool, done: nat, ghost cache: seq<byte>)
    requires st.Coherent(bmc) && ValidSection(section) && order != [] && |answers| == |order|
    requires forall i :: i in order ==> i in section
    modifies st, st.idSupported, st.priv, bmc
    ensures st.Coherent(bmc)
    ensures done <= |order| && (ok <==> done == |order|)
    ensures |cache| == LEN
    ensures Reached(section, old(st.Effective(bmc, ch)), old(bmc.channels), ch, order[..done], bmc.channels, cache)
    // With everything working it stops only at a value the section lacks.
    ensures !ok && st.Loadable(bmc, ch) && Cooperative(answers[done]) ==>
              !Complete(section, cache, order[done])
    ensures ok ==>
              && ch in old(bmc.channels)
              && var c, e := old(bmc.channels)[ch], old(st.Effective(bmc, ch));
                 && CompleteOrder(section, e, order, c.entryCount == 0)
                 && bmc.channels == old(bmc.channels)[ch := c.(privs := Final(section, e, order, c.entryCount == 0))]
                 && (0 < c.entryCount ==> forall i :: 0 <= i < LEN ==>
                       && (i in order ==> bmc.channels[ch].privs[i] == section[i])
                       && (i !in order && i in c.readable ==> bmc.channels[ch].privs[i] == c.privs[i]))
  {
    ghost var e, before := st.Effective(bmc, ch), bmc.channels;
    st.EffectiveIsFaithful(bmc, ch);
    cache := e;
    var k := 0;
    while k < |order|
      invariant 0 <= k <= |order| && st.Coherent(bmc)
      invariant cache == st.Effective(bmc, ch)
      invariant Reached(section, e, before, ch, order[..k], bmc.channels, cache)
    {
      var err;
      ghost var ready;
      ghost var now := bmc.channels;
      err, ready := st.Commit(bmc, ch, section, order[k], answers[k]);
      if !err.Success? {
        return false, k, cache;
      }
      ReachedStep(section, e, before, ch, order[..k], now, cache, order[k], st.Effective(bmc, ch));
      cache := st.Effective(bmc, ch);
      assert order[..k + 1] == order[..k] + [order[k]];
      k := k + 1;
    }
    assert order[..k] == order;
    if 0 < before[ch].entryCount {
      SectionReached(section, before[ch], e, order);
    }
    ok, done := true, k;
  }

  lemma OneCommitMore(section: Section, cache: seq<byte>, done: seq<nat>, id: nat, zero: bool)
    requires |cache| == LEN && ValidSection(section) && id in section && forall i :: i in done ==> i in section
    requires CompleteOrder(section, cache, done, zero) && Complete(section, CacheAfter(section, cache, done, zero), id)
    requires zero ==> cache == Zeros(LEN)
    ensures CompleteOrder(section, cache, done + [id], zero)
    ensures Final(section, cache, done + [id], zero) == Record(section, CacheAfter(section, cache, done, zero), id)
    ensures !zero ==>
              CacheAfter(section, cache, done + [id], zero) == CacheAfter(section, cache, done, zero)[id := section[id]]
  {
    var all := done + [id];
    assert all[..|done|] == done;
    forall k | 0 <= k < |all|
      ensures Complete(section, CacheAfter(section, cache, all[..k], zero), all[k])
    {
      if k < |done| {
        assert all[..k] == done[..k];
      }
    }
  }
}
