/** SSL_set1_extension_order of patches/0002-tls-profile-boringssl.patch, and the
    checks in front of it in src/cronet/tls.py and patches/0001-tls-profile-net.patch. */
module ExtensionOrder {
  import opened Prelude
  import opened Pairs

  /** The extension types the TLS library implements, in its own order; their
      indices fit the bytes they are stored in. */
  type Table = seq<nat>

  /** tls_extension_find. */
  function Find(table: Table, extension: nat): (index: Option<nat>)
    ensures index.Some? ==> index.value < |table| && table[index.value] == extension
    ensures index.None? <==> extension !in table
  {
    if table == [] then None
    else if table[0] == extension then Some(0)
    else
      match Find(table[1..], extension)
      case None => None
      case Some(i) => Some(i + 1)
  }

  /** Every extension is implemented, and none is named twice. */
  ghost predicate Orderable(table: Table, extensions: seq<nat>) {
    && (forall t :: t in extensions ==> t in table)
    && Unrepeated(extensions)
  }

  ghost predicate Unrepeated<T(!new)>(s: seq<T>) {
    forall i, j :: 0 <= i < j < |s| ==> s[i] != s[j]
  }

  /** A permutation of the table that starts with the named extensions, as named,
      and goes on in table order. */
  ghost predicate IsOrder(table: Table, extensions: seq<nat>, order: seq<byte>) {
    && |extensions| <= |order| == |table|
    && (forall i :: 0 <= i < |extensions| ==> Find(table, extensions[i]) == Some(order[i]))
    && (forall i, j :: |extensions| <= i < j < |order| ==> order[i] < order[j])
    && (forall k :: 0 <= k < |table| ==> k in order)
    && Unrepeated(order)
    && (forall i :: 0 <= i < |order| ==> order[i] < |table|)
  }

  class Config {
    /** Empty when no order has been set. */
    var extensionOrder: seq<byte>

    constructor ()
      ensures extensionOrder == []
    {
      extensionOrder := [];
    }
  }

  /** `available` is whether the memory for the order could be had. */
  method SetExtensionOrder(config: Config?, table: Table, extensions: seq<nat>, available: bool) returns (ok: bool)
    requires |table| <= 256
    modifies config
    ensures config == null ==> !ok
    ensures config != null && extensions == [] ==> ok && config.extensionOrder == []
    ensures config != null && extensions != [] ==> (ok <==> available && Orderable(table, extensions))
    ensures config != null && !ok ==> config.extensionOrder == old(config.extensionOrder)
    ensures config != null && ok && extensions != [] ==> IsOrder(table, extensions, config.extensionOrder)
  {
    if config == null { return false; }
    if |extensions| == 0 {
      config.extensionOrder := [];
      return true;
    }
    if !available { return false; }
    var order := new byte[|table|](i => 0);
    var placed := new bool[|table|](i => false);
    var len := 0;
    while len < |extensions|
      invariant len <= |extensions| && len <= |table|
      invariant forall i :: 0 <= i < len ==> Find(table, extensions[i]) == Some(order[i])
      invariant forall i, j :: 0 <= i < j < len ==> order[i] != order[j]
      invariant forall k :: 0 <= k < |table| ==> (placed[k] <==> k in order[..len])
      invariant config.extensionOrder == old(config.extensionOrder)
    {
      var found := Find(table, extensions[len]);
      if found.None? {
        assert extensions[len] in extensions;
        return false;
      }
      var index := found.value;
      if placed[index] {
        assert exists i :: 0 <= i < len && order[i] == index;
        return false;
      }
      FewerThan(order[..len], index, |table|);
      placed[index] := true;
      order[len] := index;
      len := len + 1;
      assert order[..len] == order[..len - 1] + [index];
    }
    AllFound(table, extensions, order[..len]);
    len := PlaceRest(order, placed, len);
    config.extensionOrder := order[..];
    return true;
  }

  /** The second loop: the indices not placed yet, in ascending order. */
  method PlaceRest(order: array<byte>, placed: array<bool>, start: nat) returns (len: nat)
    requires order.Length == placed.Length <= 256 && start <= order.Length
    requires Unrepeated(order[..start]) && forall i :: 0 <= i < start ==> order[i] < order.Length
    requires forall k :: 0 <= k < order.Length ==> (placed[k] <==> k in order[..start])
    modifies order
    ensures len == order.Length
    ensures order[..start] == old(order[..start])
    ensures forall i, j :: start <= i < j < len ==> order[i] < order[j]
    ensures forall k :: 0 <= k < order.Length ==> k in order[..]
    ensures Unrepeated(order[..]) && forall i :: 0 <= i < len ==> order[i] < order.Length
  {
    len := start;
    for i := 0 to order.Length
      invariant start <= len <= order.Length
      invariant order[..start] == old(order[..start])
      invariant forall k :: start <= k < len ==> order[k] < i
      invariant forall j, k :: start <= j < k < len ==> order[j] < order[k]
      invariant Unrepeated(order[..len])
      invariant forall k :: 0 <= k < len ==> order[k] < order.Length
      invariant forall k :: 0 <= k < order.Length ==> (k in order[..len] <==> placed[k] || k < i)
    {
      if !placed[i] {
        FewerThan(order[..len], i, order.Length);
        ghost var before := order[..len];
        order[len] := i;
        len := len + 1;
        assert order[..len] == before + [i];
      }
    }
    Filled(order[..len], order.Length);
    assert order[..len] == order[..];
  }

  // --- Counting -------------------------------------------------------------------

  /** Different numbers below n are at most n, and fewer where one is missing. */
  lemma FewerThan(s: seq<byte>, missing: nat, n: nat)
    requires Unrepeated(s) && missing < n && missing !in s
    requires forall i :: 0 <= i < |s| ==> s[i] < n
    ensures |s| < n
  {
    AtMost(s + [missing], n);
  }

  lemma {:induction false} AtMost(s: seq<int>, n: nat)
    requires Unrepeated(s)
    requires forall i :: 0 <= i < |s| ==> 0 <= s[i] < n
    ensures |s| <= n
  {
    if n > 0 && n - 1 in s {
      var k :| 0 <= k < |s| && s[k] == n - 1;
      var rest := s[..k] + s[k + 1..];
      assert forall i :: 0 <= i < |rest| ==> rest[i] == s[if i < k then i else i + 1];
      AtMost(rest, n - 1);
    } else if n > 0 {
      assert forall i :: 0 <= i < |s| ==> s[i] in s;
      AtMost(s, n - 1);
    } else {
      NoneBelowZero(s, n);
    }
  }

  lemma NoneBelowZero(s: seq<int>, n: nat)
    requires forall i :: 0 <= i < |s| ==> 0 <= s[i] < n
    ensures s != [] ==> n > 0
  {
    if s != [] {
      assert 0 <= s[0] < n;
    }
  }

  /** A list that holds every number below n has at least n elements. */
  lemma {:induction false} AtLeast(s: seq<int>, n: nat)
    requires forall k :: 0 <= k < n ==> k in s
    ensures n <= |s|
  {
    if n > 0 {
      assert n - 1 in s;
      var at :| 0 <= at < |s| && s[at] == n - 1;
      var rest := s[..at] + s[at + 1..];
      forall k | 0 <= k < n - 1
        ensures k in rest
      {
        assert k in s;
        var i :| 0 <= i < |s| && s[i] == k;
        assert rest[if i < at then i else i - 1] == k;
      }
      AtLeast(rest, n - 1);
    }
  }

  lemma Filled(s: seq<byte>, n: nat)
    requires |s| <= n && forall k :: 0 <= k < n ==> k in s
    ensures |s| == n
  {
    AtLeast(s, n);
  }

  lemma AllFound(table: Table, extensions: seq<nat>, at: seq<byte>)
    requires |at| == |extensions| && Unrepeated(at)
    requires forall i :: 0 <= i < |at| ==> Find(table, extensions[i]) == Some(at[i])
    ensures Orderable(table, extensions)
  {
    forall t | t in extensions
      ensures t in table
    {
      var i :| 0 <= i < |extensions| && extensions[i] == t;
      assert Find(table, extensions[i]).Some?;
    }
  }

  // --- What the order is ----------------------------------------------------------

  /** The contract leaves no choice: there is one such order at most. */
  lemma OrderIsUnique(table: Table, extensions: seq<nat>, a: seq<byte>, b: seq<byte>)
    requires IsOrder(table, extensions, a) && IsOrder(table, extensions, b)
    ensures a == b
  {
    var n := |extensions|;
    assert a[..n] == b[..n];
    forall x: byte
      ensures x in a[n..] <==> x in b[n..]
    {
      TailMembers(table, extensions, a, x);
      TailMembers(table, extensions, b, x);
    }
    SameAscending(a[n..], b[n..]);
    assert a == a[..n] + a[n..] && b == b[..n] + b[n..];
  }

  lemma TailMembers(table: Table, extensions: seq<nat>, order: seq<byte>, x: byte)
    requires IsOrder(table, extensions, order)
    ensures x in order[|extensions|..] <==> x < |table| && x !in order[..|extensions|]
  {
    if x in order {
      InTail(order, |extensions|, x);
    }
  }

  lemma InTail(s: seq<byte>, n: nat, x: byte)
    requires n <= |s| && Unrepeated(s) && x in s
    ensures x in s[n..] <==> x !in s[..n]
  {
    var i :| 0 <= i < |s| && s[i] == x;
    if i < n {
      assert s[..n][i] == x;
    } else {
      assert s[n..][i - n] == x;
    }
  }

  ghost predicate Ascending(s: seq<byte>) {
    forall i, j :: 0 <= i < j < |s| ==> s[i] < s[j]
  }

  /** Two ascending lists of the same numbers are the same list. */
  lemma {:induction false} SameAscending(s: seq<byte>, t: seq<byte>)
    requires Ascending(s) && Ascending(t)
    requires forall x :: x in s <==> x in t
    ensures s == t
  {
    SameEmptiness(s, t);
    if s != [] {
      assert s[0] in t && t[0] in s;
      assert s[0] == t[0];
      forall x: byte
        ensures x in s[1..] <==> x in t[1..]
      {
        assert x in s <==> x == s[0] || x in s[1..];
        assert x in t <==> x == t[0] || x in t[1..];
        assert s[0] !in s[1..] && t[0] !in t[1..];
      }
      SameAscending(s[1..], t[1..]);
    }
  }

  lemma SameEmptiness(s: seq<byte>, t: seq<byte>)
    requires forall x :: x in s <==> x in t
    ensures s == [] <==> t == []
  {
    if s != [] {
      assert s[0] in t;
    }
    if t != [] {
      assert t[0] in s;
    }
  }

  // --- The checks in front --------------------------------------------------------

  function Types(extensions: seq<nat>): set<nat> {
    set t | t in extensions
  }

  /** TlsProfile's check: as many different types as types. */
  predicate PassesDuplicateCheck(extensions: seq<nat>) {
    |Types(extensions)| == |extensions|
  }

  lemma TypesLast(init: seq<nat>, last: nat)
    ensures |Types(init + [last])| == |Types(init)| + if last in init then 0 else 1
  {
    assert Types(init + [last]) == Types(init) + {last};
    if last in init {
      assert Types(init) + {last} == Types(init);
    }
  }

  lemma UnrepeatedLast(init: seq<nat>, last: nat)
    ensures Unrepeated(init + [last]) <==> Unrepeated(init) && last !in init
  {
    var all := init + [last];
    assert forall i :: 0 <= i < |init| ==> all[i] == init[i];
    assert all[|init|] == last;
    if last in init {
      var i :| 0 <= i < |init| && init[i] == last;
      assert all[i] == all[|init|];
    }
  }

  lemma {:induction false} DuplicateCheckIsExact(extensions: seq<nat>)
    ensures |Types(extensions)| <= |extensions|
    ensures PassesDuplicateCheck(extensions) <==> Unrepeated(extensions)
  {
    if extensions != [] {
      var init, last := extensions[..|extensions| - 1], extensions[|extensions| - 1];
      assert extensions == init + [last];
      DuplicateCheckIsExact(init);
      TypesLast(init, last);
      UnrepeatedLast(init, last);
    }
  }

  function Implemented(table: Table): nat -> bool {
    (t: nat) => Find(table, t).Some?
  }

  /** RemoveUnorderableExtensions: what stays of the order. */
  function RemoveUnorderable(table: Table, extensions: seq<nat>): seq<nat> {
    Filter(extensions, Implemented(table))
  }

  /** What is left after the two checks can always be set: the call then fails only
      for want of memory. */
  lemma CheckedOrderIsAccepted(table: Table, extensions: seq<nat>)
    requires PassesDuplicateCheck(extensions)
    ensures Orderable(table, RemoveUnorderable(table, extensions))
  {
    DuplicateCheckIsExact(extensions);
    var kept := RemoveUnorderable(table, extensions);
    FilterKeepsOrder(extensions, Implemented(table));
    forall t | t in kept
      ensures t in table
    {
      FilterMember(extensions, Implemented(table), t);
    }
  }

  /** The implemented extensions of a profile, found at `at`, are stored first, in the
      profile's own order, and the other ones behind them in the table's. */
  ghost predicate FollowsProfile(table: Table, extensions: seq<nat>, order: seq<byte>, at: seq<nat>) {
    && (forall k :: 0 <= k < |at| ==> at[k] < |extensions|)
    && (forall j, k :: 0 <= j < k < |at| ==> at[j] < at[k])
    && (forall i: nat :: i < |extensions| && extensions[i] in table ==> i in at)
    && |at| <= |order| == |table|
    && (forall k :: 0 <= k < |at| ==> order[k] < |table| && table[order[k]] == extensions[at[k]])
    && (forall j, k :: |at| <= j < k < |order| ==> order[j] < order[k])
    && (forall k :: 0 <= k < |table| ==> k in order)
  }

  lemma ProfileIsFollowed(table: Table, extensions: seq<nat>, order: seq<byte>)
    requires IsOrder(table, RemoveUnorderable(table, extensions), order)
    ensures FollowsProfile(table, extensions, order, Kept(extensions, Implemented(table)))
  {
    FilterKeepsOrder(extensions, Implemented(table));
  }

  lemma NothingKept(table: Table, extensions: seq<nat>)
    ensures RemoveUnorderable(table, extensions) == [] <==> forall t :: t in extensions ==> t !in table
  {
    var kept := RemoveUnorderable(table, extensions);
    forall t
      ensures t in kept <==> t in extensions && t in table
    {
      FilterMember(extensions, Implemented(table), t);
    }
    assert kept != [] ==> kept[0] in kept;
  }

  /** The profile's way to the TLS configuration: removal, then the call unless
      nothing is left. */
  method ApplyProfile(config: Config, table: Table, extensions: seq<nat>, available: bool) returns (ok: bool)
    requires |table| <= 256
    modifies config
    ensures ok <==> (forall t :: t in extensions ==> t !in table) || (available && NoneRepeats(table, extensions))
    ensures PassesDuplicateCheck(extensions) && available ==> ok
    ensures ok && (exists t :: t in extensions && t in table) ==>
              && Unrepeated(config.extensionOrder)
              && exists at :: FollowsProfile(table, extensions, config.extensionOrder, at)
    ensures !ok || (forall t :: t in extensions ==> t !in table) ==>
              config.extensionOrder == old(config.extensionOrder)
  {
    var kept := RemoveUnorderable(table, extensions);
    NothingKept(table, extensions);
    AcceptedExactly(table, extensions);
    if PassesDuplicateCheck(extensions) {
      CheckedOrderIsAccepted(table, extensions);
    }
    if kept == [] { return true; }
    ok := SetExtensionOrder(config, table, kept, available);
    if ok {
      ProfileIsFollowed(table, extensions, config.extensionOrder);
    }
  }

  /** Without the first check a repeated extension stays repeated, unless the second
      removes it: the order is accepted exactly when no implemented one repeats. */
  lemma AcceptedExactly(table: Table, extensions: seq<nat>)
    ensures Orderable(table, RemoveUnorderable(table, extensions)) <==> NoneRepeats(table, extensions)
  {
    var kept := RemoveUnorderable(table, extensions);
    forall t | t in kept
      ensures t in table
    {
      FilterMember(extensions, Implemented(table), t);
    }
    if Unrepeated(kept) {
      KeptUnrepeated(table, extensions);
    }
    if NoneRepeats(table, extensions) {
      FilterKeepsOrder(extensions, Implemented(table));
    }
  }

  /** No implemented extension is named again. */
  ghost predicate NoneRepeats(table: Table, extensions: seq<nat>) {
    forall i, j :: 0 <= i < j < |extensions| && extensions[i] in table ==> extensions[i] != extensions[j]
  }

  lemma KeptUnrepeated(table: Table, extensions: seq<nat>)
    requires Unrepeated(RemoveUnorderable(table, extensions))
    ensures NoneRepeats(table, extensions)
  {
    var kept, at := RemoveUnorderable(table, extensions), Kept(extensions, Implemented(table));
    FilterKeepsOrder(extensions, Implemented(table));
    forall i, j | 0 <= i < j < |extensions| && extensions[i] in table
      ensures extensions[i] != extensions[j]
    {
      if extensions[j] in table {
        var a :| 0 <= a < |at| && at[a] == i;
        var b :| 0 <= b < |at| && at[b] == j;
        assert a != b && kept[a] == extensions[i] && kept[b] == extensions[j];
      }
    }
  }
}
