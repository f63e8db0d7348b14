/** Channel access settings (sections 22.22 and 22.23 of IPMI v2.0) as
    ipmi-config commits and checks them out: ten keys over a volatile and a
    non-volatile record, three of whose fields the wire carries inverted. */
module ChannelAccess {
  import opened Common

  datatype Store = Volatile | NonVolatile
  datatype Item = AccessMode | UserLevelAuth | PerMessageAuth | PefAlerting | PrivilegeLimit
  datatype Key = Key(store: Store, item: Item)

  /** `struct channel_access`: 1 means enabled. */
  datatype Access = Access(mode: byte, userLevel: byte, perMessage: byte, alerting: byte, limit: byte)

  /** The bits of the command: 1 means disabled in the three middle ones. */
  datatype Wire = Wire(mode: byte, userLevelOff: byte, perMessageOff: byte, alertingOff: byte, limit: byte)

  predicate ValidWire(w: Wire) {
    w.userLevelOff <= 1 && w.perMessageOff <= 1 && w.alertingOff <= 1
  }

  function Inverted(v: byte): byte {
    if v != 0 then 0 else 1
  }

  function FromWire(w: Wire): Access {
    Access(w.mode, Inverted(w.userLevelOff), Inverted(w.perMessageOff), Inverted(w.alertingOff), w.limit)
  }

  function ToWire(a: Access): Wire {
    Wire(a.mode, Inverted(a.userLevel), Inverted(a.perMessage), Inverted(a.alerting), a.limit)
  }

  function Value(a: Access, i: Item): byte {
    match i
    case AccessMode => a.mode
    case UserLevelAuth => a.userLevel
    case PerMessageAuth => a.perMessage
    case PefAlerting => a.alerting
    case PrivilegeLimit => a.limit
  }

  function With(a: Access, i: Item, v: byte): Access {
    match i
    case AccessMode => a.(mode := v)
    case UserLevelAuth => a.(userLevel := v)
    case PerMessageAuth => a.(perMessage := v)
    case PefAlerting => a.(alerting := v)
    case PrivilegeLimit => a.(limit := v)
  }

  /** Yes/No keys are committed as 1 or 0. */
  predicate ValidValue(i: Item, v: byte) {
    i.AccessMode? || i.PrivilegeLimit? || v <= 1
  }

  datatype Reply = Good | Unsupported | Refused | Broken
  datatype Err = Success | NotSupported | NonFatal | Fatal

  /** The two records of the channel. */
  datatype Records = Records(volatile: Wire, nonVolatile: Wire)

  function Of(r: Records, s: Store): Wire {
    if s.Volatile? then r.volatile else r.nonVolatile
  }

  predicate ValidRecords(r: Records) {
    ValidWire(r.volatile) && ValidWire(r.nonVolatile)
  }

  /** Set Channel Access: one selector for the access bits, one for the limit. */
  function Written(r: Records, w: Wire, access: Store, limit: Store): Records {
    var accessed := if access.Volatile? then r.(volatile := w.(limit := r.volatile.limit))
                    else r.(nonVolatile := w.(limit := r.nonVolatile.limit));
    if limit.Volatile? then accessed.(volatile := accessed.volatile.(limit := w.limit))
    else accessed.(nonVolatile := accessed.nonVolatile.(limit := w.limit))
  }

  /** The field of the key's own record, as it is on the wire. */
  function Stored(r: Records, k: Key): byte {
    var w := match k.store case Volatile => r.volatile case NonVolatile => r.nonVolatile;
    match k.item
    case AccessMode => w.mode
    case UserLevelAuth => w.userLevelOff
    case PerMessageAuth => w.perMessageOff
    case PefAlerting => w.alertingOff
    case PrivilegeLimit => w.limit
  }

  /** What a key shows for a field of the record: 1 for a disabling bit that is
      clear and 0 for one that is set; mode and limit are shown as they are. */
  predicate Tells(i: Item, stored: byte, v: byte) {
    match i
    case AccessMode => v == stored
    case PrivilegeLimit => v == stored
    case _ => (stored == 0 ==> v == 1) && (stored != 0 ==> v == 0)
  }

  /** No field of either record changed but that of the key. */
  ghost predicate SameButFor(r: Records, s: Records, k: Key) {
    forall other: Key :: other != k ==> Stored(s, other) == Stored(r, other)
  }

  lemma CommitTells(r: Records, k: Key, v: byte)
    requires ValidRecords(r) && ValidValue(k.item, v)
    ensures Tells(k.item, Stored(Committed(r, k, v), k), v) && SameButFor(r, Committed(r, k, v), k)
  {
    InversionsCancel(Of(r, k.store));
  }

  class Bmc {
    var records: Records

    method Get(s: Store, reply: Reply) returns (r: Reply, w: Wire)
      ensures r == reply && w == Of(records, s)
    {
      r, w := reply, Of(records, s);
    }

    method Set(w: Wire, access: Store, limit: Store, reply: Reply) returns (r: Reply)
      modifies this
      ensures r == reply
      ensures records == if reply.Good? then Written(old(records), w, access, limit) else old(records)
    {
      r := reply;
      if reply.Good? {
        records := Written(records, w, access, limit);
      }
    }

    /** The five checkouts. */
    method Checkout(k: Key, reply: Reply) returns (err: Err, v: byte)
      ensures (err.Success? <==> reply.Good?) && (err.Fatal? <==> reply.Broken?) && !err.NotSupported?
      ensures err.Success? ==> v == Shown(records, k) && Tells(k.item, Stored(records, k), v)
    {
      var r, w := Get(k.store, reply);
      v := 0;
      if !r.Good? {
        return if r.Broken? then Fatal else NonFatal, v;
      }
      err, v := Success, Value(FromWire(w), k.item);
    }

    /** The five commits: get, change one field, set.  "Invalid data field" means
        "not supported" for user level authentication only. */
    method Commit(k: Key, v: byte, fetch: Reply, store: Reply) returns (err: Err)
      requires ValidRecords(records) && ValidValue(k.item, v)
      modifies this
      ensures ValidRecords(records)
      ensures err.Success? <==> fetch.Good? && store.Good?
      ensures records == if err.Success? then Committed(old(records), k, v) else old(records)
      // The bit sent disables what the user wants off, and no other field changes.
      ensures err.Success? ==> Tells(k.item, Stored(records, k), v) && SameButFor(old(records), records, k)
      ensures err.NotSupported? <==> fetch.Good? && store.Unsupported? && k.item.UserLevelAuth?
      ensures err.Fatal? <==> fetch.Broken? || (fetch.Good? && store.Broken?)
    {
      hide Stored;
      hide Tells;
      CommitTells(records, k, v);
      var r, w := Get(k.store, fetch);
      if !r.Good? {
        return if r.Broken? then Fatal else NonFatal;
      }
      var ch := With(FromWire(w), k.item, v);
      r := Set(ToWire(ch), k.store, k.store, store);
      if r.Unsupported? && k.item.UserLevelAuth? {
        return NotSupported;
      }
      err := match r case Good => Success case Broken => Fatal case _ => NonFatal;
    }
  }

  /** A sequence of commits, some of which may fail: the records are those of the
      commits that succeeded, in order. */
  method CommitAll(bmc: Bmc, commits: seq<(Key, byte)>, replies: seq<(Reply, Reply)>) returns (done: seq<(Key, byte)>)
    requires ValidRecords(bmc.records) && ValidCommits(commits) && |replies| == |commits|
    modifies bmc
    ensures bmc.records == After(old(bmc.records), done) && ValidCommits(done)
    ensures (forall i :: 0 <= i < |replies| ==> replies[i] == (Good, Good)) ==> done == commits
  {
    done := [];
    for i := 0 to |commits|
      invariant ValidRecords(bmc.records) && ValidCommits(done)
      invariant bmc.records == After(old(bmc.records), done)
      invariant (forall k :: 0 <= k < i ==> replies[k] == (Good, Good)) ==> done == commits[..i]
    {
      var err := bmc.Commit(commits[i].0, commits[i].1, replies[i].0, replies[i].1);
      if err.Success? {
        assert (done + [commits[i]])[..|done|] == done;
        done := done + [commits[i]];
      }
    }
  }

  // ----- Sequences of commits -----

  function Shown(r: Records, k: Key): byte {
    Value(FromWire(Of(r, k.store)), k.item)
  }

  /** The records after successful commits, in terms of what is shown: the key
      committed shows its value and the wire is written back without loss. */
  function After(r: Records, commits: seq<(Key, byte)>): Records {
    if commits == [] then r
    else
      Committed(After(r, commits[..|commits| - 1]), commits[|commits| - 1].0, commits[|commits| - 1].1)
  }

  function Committed(r: Records, k: Key, v: byte): Records {
    var w := ToWire(With(FromWire(Of(r, k.store)), k.item, v));
    if k.store.Volatile? then r.(volatile := w) else r.(nonVolatile := w)
  }

  lemma CommitShows(r: Records, k: Key, v: byte, other: Key)
    requires ValidRecords(r) && ValidValue(k.item, v)
    ensures ValidRecords(Committed(r, k, v))
    ensures Shown(Committed(r, k, v), other) == if other == k then v else Shown(r, other)
  {
    var a := FromWire(Of(r, k.store));
    WithShows(a, k.item, v, other.item);
    assert FromWire(ToWire(With(a, k.item, v))) == With(a, k.item, v);
    assert Of(Committed(r, k, v), k.store) == ToWire(With(a, k.item, v));
  }

  lemma WithShows(a: Access, i: Item, v: byte, j: Item)
    ensures Value(With(a, i, v), j) == if i == j then v else Value(a, j)
  {
  }

  /** The value of the last commit of the key, or what was shown before. */
  function LastCommitted(r: Records, commits: seq<(Key, byte)>, k: Key): byte {
    if commits == [] then Shown(r, k)
    else if commits[|commits| - 1].0 == k then commits[|commits| - 1].1
    else LastCommitted(r, commits[..|commits| - 1], k)
  }

  predicate ValidCommits(commits: seq<(Key, byte)>) {
    forall i :: 0 <= i < |commits| ==> ValidValue(commits[i].0.item, commits[i].1)
  }

  /** The two inversions cancel on everything a BMC can store. */
  lemma InversionsCancel(w: Wire)
    requires ValidWire(w)
    ensures ToWire(FromWire(w)) == w
  {
  }

  /** What is shown determines what is stored. */
  lemma ShownDeterminesStored(r: Records, s: Records)
    requires ValidRecords(r) && ValidRecords(s) && forall k :: Shown(r, k) == Shown(s, k)
    ensures r == s
  {
    forall st: Store
      ensures Of(r, st) == Of(s, st)
    {
      InversionsCancel(Of(r, st));
      InversionsCancel(Of(s, st));
      assert Shown(r, Key(st, AccessMode)) == Shown(s, Key(st, AccessMode));
      assert Shown(r, Key(st, UserLevelAuth)) == Shown(s, Key(st, UserLevelAuth));
      assert Shown(r, Key(st, PerMessageAuth)) == Shown(s, Key(st, PerMessageAuth));
      assert Shown(r, Key(st, PefAlerting)) == Shown(s, Key(st, PefAlerting));
      assert Shown(r, Key(st, PrivilegeLimit)) == Shown(s, Key(st, PrivilegeLimit));
    }
    assert Of(r, Volatile) == Of(s, Volatile) && Of(r, NonVolatile) == Of(s, NonVolatile);
  }

  /** After any commits, on either store, every key shows the value last
      committed to it, or the one it had; in particular commits to one store do
      not show in the other. */
  lemma {:induction false} CheckoutShowsLastCommit(r: Records, commits: seq<(Key, byte)>, k: Key)
    requires ValidRecords(r) && ValidCommits(commits)
    ensures ValidRecords(After(r, commits))
    ensures Shown(After(r, commits), k) == LastCommitted(r, commits, k)
    decreases |commits|
  {
    if commits != [] {
      var pre, final := commits[..|commits| - 1], commits[|commits| - 1];
      CheckoutShowsLastCommit(r, pre, k);
      CommitShows(After(r, pre), final.0, final.1, k);
    }
  }

  /** In terms of what is stored: after any commits every field of either record
      is the one that tells the value last committed to its key. */
  lemma FieldsTellLastCommit(r: Records, commits: seq<(Key, byte)>, k: Key)
    requires ValidRecords(r) && ValidCommits(commits)
    ensures Tells(k.item, Stored(After(r, commits), k), LastCommitted(r, commits, k))
    ensures !k.item.AccessMode? && !k.item.PrivilegeLimit? ==>
              (Stored(After(r, commits), k) == 0 <==> LastCommitted(r, commits, k) == 1)
  {
    CheckoutShowsLastCommit(r, commits, k);
  }

  lemma {:induction false} StoresAreIndependent(r: Records, commits: seq<(Key, byte)>, s: Store)
    requires forall i :: 0 <= i < |commits| ==> commits[i].0.store != s
    ensures Of(After(r, commits), s) == Of(r, s)
    decreases |commits|
  {
    if commits != [] {
      StoresAreIndependent(r, commits[..|commits| - 1], s);
    }
  }

  /** Two orders that give every key the same last value end in the same
      records; so commits of distinct keys can be exchanged anywhere. */
  lemma OrderDoesNotMatter(r: Records, one: seq<(Key, byte)>, other: seq<(Key, byte)>)
    requires ValidRecords(r) && ValidCommits(one) && ValidCommits(other)
    requires forall k :: LastCommitted(r, one, k) == LastCommitted(r, other, k)
    ensures After(r, one) == After(r, other)
  {
    CheckoutShowsLastCommit(r, one, Key(Volatile, AccessMode));
    CheckoutShowsLastCommit(r, other, Key(Volatile, AccessMode));
    forall k
      ensures Shown(After(r, one), k) == Shown(After(r, other), k)
    {
      CheckoutShowsLastCommit(r, one, k);
      CheckoutShowsLastCommit(r, other, k);
    }
    ShownDeterminesStored(After(r, one), After(r, other));
  }

  lemma {:induction false} LastAfter(r: Records, head: seq<(Key, byte)>, tail: seq<(Key, byte)>, k: Key)
    ensures LastCommitted(r, head + tail, k)
         == if exists i :: 0 <= i < |tail| && tail[i].0 == k then LastCommitted(r, tail, k)
            else LastCommitted(r, head, k)
    decreases |tail|
  {
    if tail == [] {
      assert head + tail == head;
    } else {
      var n := |tail| - 1;
      assert (head + tail)[..|head + tail| - 1] == head + tail[..n];
      LastAfter(r, head, tail[..n], k);
      if tail[n].0 != k && exists i :: 0 <= i < |tail| && tail[i].0 == k {
        var i :| 0 <= i < |tail| && tail[i].0 == k;
        assert tail[..n][i].0 == k;
      }
    }
  }

  /** Distinct keys commute, in the middle of any sequence of commits. */
  lemma DistinctKeysCommute(r: Records, head: seq<(Key, byte)>, a: (Key, byte), b: (Key, byte), tail: seq<(Key, byte)>)
    requires ValidRecords(r) && ValidCommits(head + [a, b] + tail) && ValidCommits(head + [b, a] + tail)
    requires a.0 != b.0
    ensures After(r, head + [a, b] + tail) == After(r, head + [b, a] + tail)
  {
    forall k
      ensures LastCommitted(r, head + [a, b] + tail, k) == LastCommitted(r, head + [b, a] + tail, k)
    {
      LastAfter(r, head + [a, b], tail, k);
      LastAfter(r, head + [b, a], tail, k);
      LastAfter(r, head, [a, b], k);
      LastAfter(r, head, [b, a], k);
      LastAfter(r, [a], [b], k);
      LastAfter(r, [b], [a], k);
      assert [a] + [b] == [a, b] && [b] + [a] == [b, a];
      assert [a, b][0] == a && [a, b][1] == b && [b, a][0] == b && [b, a][1] == a;
    }
    OrderDoesNotMatter(r, head + [a, b] + tail, head + [b, a] + tail);
  }
}
