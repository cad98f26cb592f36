/** The ordered header lists of src/cronet/headers.py, and how one is laid over
    another. `fold` is str.lower; a list never changes once made, so it is a value. */
module HeaderOverlay {
  import opened Prelude
  import opened Pairs

  type Fold = string -> string

  function Named(fold: Fold, name: string): Pair -> bool {
    (p: Pair) => fold(p.0) == name
  }

  function NamedOutside(fold: Fold, names: set<string>): Pair -> bool {
    (p: Pair) => fold(p.0) !in names
  }

  /** The folded names of a list. */
  function Names(fold: Fold, pairs: seq<Pair>): set<string> {
    set p | p in pairs :: fold(p.0)
  }

  // --- Reading a list -------------------------------------------------------------

  /** Each folded name once, where it first appears. */
  function NameOrder(fold: Fold, pairs: seq<Pair>): seq<string> {
    if pairs == [] then []
    else
      var before, name := NameOrder(fold, pairs[..|pairs| - 1]), fold(pairs[|pairs| - 1].0);
      if name in before then before else before + [name]
  }

  function Second(pairs: seq<Pair>): seq<string> {
    seq(|pairs|, i requires 0 <= i < |pairs| => pairs[i].1)
  }

  function GetList(fold: Fold, pairs: seq<Pair>, name: string): seq<string> {
    Second(Filter(pairs, Named(fold, fold(name))))
  }

  function Joined(values: seq<string>): string {
    if values == [] then ""
    else if |values| == 1 then values[0]
    else values[0] + ", " + Joined(values[1..])
  }

  /** Joining piece by piece is joining at once. */
  lemma {:induction false} JoinedConcat(a: seq<string>, b: seq<string>)
    requires a != [] && b != []
    ensures Joined(a + b) == Joined(a) + ", " + Joined(b)
  {
    assert (a + b)[1..] == a[1..] + b;
    if |a| == 1 {
      assert a + b == [a[0]] + b;
    } else {
      JoinedConcat(a[1..], b);
      assert a[0] + ", " + (Joined(a[1..]) + ", " + Joined(b)) == (a[0] + ", " + Joined(a[1..])) + ", " + Joined(b);
    }
  }

  /** None for the KeyError of an absent name. */
  function GetItem(fold: Fold, pairs: seq<Pair>, name: string): Option<string> {
    var values := GetList(fold, pairs, name);
    if values == [] then None else Some(Joined(values))
  }

  function Length(fold: Fold, pairs: seq<Pair>): nat {
    |Names(fold, pairs)|
  }

  predicate Contains(fold: Fold, pairs: seq<Pair>, name: string) {
    exists p :: p in pairs && fold(p.0) == fold(name)
  }

  /** Index `k` is where its name first appears. */
  predicate First(fold: Fold, pairs: seq<Pair>, k: nat)
    requires k < |pairs|
  {
    forall i :: 0 <= i < k ==> fold(pairs[i].0) != fold(pairs[k].0)
  }

  /** __iter__: the first spelling of each name. */
  method Iterate(fold: Fold, pairs: seq<Pair>) returns (names: seq<string>)
    ensures |names| == |NameOrder(fold, pairs)|
    ensures forall i :: 0 <= i < |names| ==> fold(names[i]) == NameOrder(fold, pairs)[i]
    ensures forall n :: n in names ==> exists k :: 0 <= k < |pairs| && First(fold, pairs, k) && pairs[k].0 == n
  {
    names := [];
    var seen := {};
    for i := 0 to |pairs|
      invariant seen == set n | n in NameOrder(fold, pairs[..i])
      invariant |names| == |NameOrder(fold, pairs[..i])|
      invariant forall j :: 0 <= j < |names| ==> fold(names[j]) == NameOrder(fold, pairs[..i])[j]
      invariant forall n :: n in names ==> exists k :: 0 <= k < i && First(fold, pairs, k) && pairs[k].0 == n
    {
      var folded := fold(pairs[i].0);
      assert pairs[..i + 1][..i] == pairs[..i];
      OrderedNames(fold, pairs[..i]);
      if folded !in seen {
        seen := seen + {folded};
        names := names + [pairs[i].0];
        assert First(fold, pairs, i) by {
          forall k | 0 <= k < i
            ensures fold(pairs[k].0) != folded
          {
            assert pairs[..i][k] in pairs[..i];
          }
        }
      }
    }
    assert pairs[..|pairs|] == pairs;
  }

  lemma NamesStep(fold: Fold, init: seq<Pair>, last: Pair)
    ensures Names(fold, init + [last]) == Names(fold, init) + {fold(last.0)}
  {
    forall p | p in init + [last]
      ensures fold(p.0) in Names(fold, init) + {fold(last.0)}
    {
    }
    assert last in init + [last];
    forall n | n in Names(fold, init)
      ensures n in Names(fold, init + [last])
    {
      var p :| p in init && fold(p.0) == n;
      assert p in init + [last];
    }
  }

  /** The names in order are the names, each once. */
  lemma {:induction false} OrderedNames(fold: Fold, pairs: seq<Pair>)
    ensures forall n :: n in NameOrder(fold, pairs) <==> n in Names(fold, pairs)
    ensures forall i, j :: 0 <= i < j < |NameOrder(fold, pairs)| ==> NameOrder(fold, pairs)[i] != NameOrder(fold, pairs)[j]
    ensures |NameOrder(fold, pairs)| == Length(fold, pairs)
  {
    if pairs != [] {
      var init, last := pairs[..|pairs| - 1], pairs[|pairs| - 1];
      assert pairs == init + [last];
      OrderedNames(fold, init);
      NamesStep(fold, init, last);
    }
  }

  /** Membership, subscripting, iteration and length agree: a name is contained
      exactly when it has values, exactly when subscripting succeeds, exactly when
      its folding is iterated over. */
  lemma MappingAgrees(fold: Fold, pairs: seq<Pair>, name: string)
    ensures Contains(fold, pairs, name) <==> GetItem(fold, pairs, name).Some?
    ensures Contains(fold, pairs, name) <==> fold(name) in NameOrder(fold, pairs)
    ensures |NameOrder(fold, pairs)| == Length(fold, pairs)
  {
    OrderedNames(fold, pairs);
    var found := Filter(pairs, Named(fold, fold(name)));
    if p :| p in pairs && fold(p.0) == fold(name) {
      FilterMember(pairs, Named(fold, fold(name)), p);
    }
    if found != [] {
      FilterMember(pairs, Named(fold, fold(name)), found[0]);
      assert found[0] in found;
    }
  }

  /** What is under a name, by indices: the value of each pair whose name folds to the
      same, each once, in the list's order. */
  lemma ValuesByIndex(fold: Fold, pairs: seq<Pair>, name: string) returns (at: seq<nat>)
    ensures |GetList(fold, pairs, name)| == |at|
    ensures forall i :: 0 <= i < |at| ==>
              at[i] < |pairs| && fold(pairs[at[i]].0) == fold(name) && GetList(fold, pairs, name)[i] == pairs[at[i]].1
    ensures forall i, j :: 0 <= i < j < |at| ==> at[i] < at[j]
    ensures forall k: nat :: k < |pairs| && fold(pairs[k].0) == fold(name) ==> k in at
  {
    at := Kept(pairs, Named(fold, fold(name)));
    FilterKeepsOrder(pairs, Named(fold, fold(name)));
  }

  /** Subscripting with a name that occurs once gives its value. */
  lemma OnlyValue(fold: Fold, pairs: seq<Pair>, name: string, k: nat)
    requires k < |pairs| && fold(pairs[k].0) == fold(name)
    requires forall i :: 0 <= i < |pairs| && i != k ==> fold(pairs[i].0) != fold(name)
    ensures GetItem(fold, pairs, name) == Some(pairs[k].1)
  {
    var at := ValuesByIndex(fold, pairs, name);
    assert k in at;
    assert at[0] == k && at[|at| - 1] == k;
  }

  /** The names in order, by indices: the folding of each name that appears for the
      first time, in the list's order. */
  lemma NamesByIndex(fold: Fold, pairs: seq<Pair>) returns (at: seq<nat>)
    ensures |NameOrder(fold, pairs)| == |at|
    ensures forall i :: 0 <= i < |at| ==>
              at[i] < |pairs| && First(fold, pairs, at[i]) && NameOrder(fold, pairs)[i] == fold(pairs[at[i]].0)
    ensures forall i, j :: 0 <= i < j < |at| ==> at[i] < at[j]
    ensures forall k: nat :: k < |pairs| && First(fold, pairs, k) ==> k in at
  {
    at := Firsts(fold, pairs, |pairs|);
    FirstsInOrder(fold, pairs, |pairs|);
    assert pairs[..|pairs|] == pairs;
    NamesAtFirsts(fold, pairs, |pairs|);
    assert forall i :: 0 <= i < |at| ==> at[i] in at;
  }

  /** The indices below `n` at which a name first appears. */
  ghost function Firsts(fold: Fold, pairs: seq<Pair>, n: nat): seq<nat>
    requires n <= |pairs|
  {
    if n == 0 then []
    else if First(fold, pairs, n - 1) then Firsts(fold, pairs, n - 1) + [n - 1]
    else Firsts(fold, pairs, n - 1)
  }

  lemma {:induction false} FirstsInOrder(fold: Fold, pairs: seq<Pair>, n: nat)
    requires n <= |pairs|
    ensures var at := Firsts(fold, pairs, n);
            && (forall k :: k in at ==> k < n)
            && (forall k: nat :: k in at <==> k < n && First(fold, pairs, k))
            && (forall i, j :: 0 <= i < j < |at| ==> at[i] < at[j])
  {
    if n > 0 {
      var before, at := Firsts(fold, pairs, n - 1), Firsts(fold, pairs, n);
      FirstsInOrder(fold, pairs, n - 1);
      if First(fold, pairs, n - 1) {
        assert at == before + [n - 1];
        assert forall i :: 0 <= i < |before| ==> before[i] in before;
      }
    }
  }

  ghost predicate NamesAt(fold: Fold, pairs: seq<Pair>, at: seq<nat>, names: seq<string>) {
    |names| == |at| && forall i :: 0 <= i < |at| ==> at[i] < |pairs| && names[i] == fold(pairs[at[i]].0)
  }

  lemma NamesAtStep(fold: Fold, pairs: seq<Pair>, at: seq<nat>, names: seq<string>, n: nat)
    requires n < |pairs| && NamesAt(fold, pairs, at, names)
    ensures NamesAt(fold, pairs, at + [n], names + [fold(pairs[n].0)])
  {
  }

  lemma {:induction false} NamesAtFirsts(fold: Fold, pairs: seq<Pair>, n: nat)
    requires n <= |pairs|
    ensures NamesAt(fold, pairs, Firsts(fold, pairs, n), NameOrder(fold, pairs[..n]))
  {
    if n > 0 {
      var at, names := Firsts(fold, pairs, n - 1), NameOrder(fold, pairs[..n - 1]);
      NamesAtFirsts(fold, pairs, n - 1);
      NewName(fold, pairs, n - 1);
      NamesAtStep(fold, pairs, at, names, n - 1);
    }
  }

  lemma NewName(fold: Fold, pairs: seq<Pair>, n: nat)
    requires n < |pairs|
    ensures NameOrder(fold, pairs[..n + 1])
            == if First(fold, pairs, n) then NameOrder(fold, pairs[..n]) + [fold(pairs[n].0)]
               else NameOrder(fold, pairs[..n])
  {
    assert pairs[..n + 1][..n] == pairs[..n];
    OrderedNames(fold, pairs[..n]);
    if k :| 0 <= k < n && fold(pairs[k].0) == fold(pairs[n].0) {
      assert pairs[..n][k] in pairs[..n];
    }
  }

  // --- Laying one list over another -----------------------------------------------

  /** What one default gives, behind the defaults `before` it. */
  function Given(fold: Fold, own: seq<Pair>, before: seq<Pair>, default: Pair): seq<Pair> {
    var name := fold(default.0);
    if name !in Names(fold, own) then [default]
    else if name !in Names(fold, before) then Filter(own, Named(fold, name))
    else []
  }

  /** What the loop over the defaults has produced. */
  function Laid(fold: Fold, own: seq<Pair>, defaults: seq<Pair>): seq<Pair> {
    if defaults == [] then []
    else
      var before, default := defaults[..|defaults| - 1], defaults[|defaults| - 1];
      Laid(fold, own, before) + Given(fold, own, before, default)
  }

  lemma LaidLast(fold: Fold, own: seq<Pair>, before: seq<Pair>, default: Pair)
    ensures Laid(fold, own, before + [default]) == Laid(fold, own, before) + Given(fold, own, before, default)
  {
    assert (before + [default])[..|before|] == before;
  }

  function Overlay(fold: Fold, own: seq<Pair>, defaults: seq<Pair>): seq<Pair> {
    Laid(fold, own, defaults) + Filter(own, NamedOutside(fold, Names(fold, defaults)))
  }

  method WithDefaults(fold: Fold, pairs: seq<Pair>, defaults: seq<Pair>) returns (result: seq<Pair>)
    ensures result == Overlay(fold, pairs, defaults)
  {
    var own := Names(fold, pairs);
    var emitted: set<string> := {};
    result := [];
    for i := 0 to |defaults|
      invariant emitted == Names(fold, defaults[..i]) * own
      invariant result == Laid(fold, pairs, defaults[..i])
    {
      var folded := fold(defaults[i].0);
      assert defaults[..i + 1] == defaults[..i] + [defaults[i]];
      NamesStep(fold, defaults[..i], defaults[i]);
      LaidLast(fold, pairs, defaults[..i], defaults[i]);
      if folded !in own {
        result := result + [defaults[i]];
      } else if folded !in emitted {
        emitted := emitted + {folded};
        result := result + Filter(pairs, Named(fold, folded));
      }
    }
    assert defaults[..|defaults|] == defaults;
    EmittedSuffices(fold, pairs, Names(fold, defaults));
    result := result + Filter(pairs, NamedOutside(fold, emitted));
  }

  /** For the request's own pairs, emitted names and default names come to the same. */
  lemma EmittedSuffices(fold: Fold, own: seq<Pair>, names: set<string>)
    ensures Filter(own, NamedOutside(fold, names * Names(fold, own))) == Filter(own, NamedOutside(fold, names))
  {
    FilterAgrees(own, NamedOutside(fold, names * Names(fold, own)), NamedOutside(fold, names));
  }

  // --- What the overlay keeps -----------------------------------------------------

  /** Narrowing a group by a name gives the group or nothing. */
  lemma GroupNamed(fold: Fold, pairs: seq<Pair>, group: string, name: string)
    ensures Filter(Filter(pairs, Named(fold, group)), Named(fold, name))
            == if group == name then Filter(pairs, Named(fold, name)) else []
  {
    if group == name {
      FilterThrough(pairs, Named(fold, name), Named(fold, name));
    } else {
      var found := Filter(pairs, Named(fold, group));
      forall p | p in found
        ensures fold(p.0) != name
      {
        FilterMember(pairs, Named(fold, group), p);
      }
      FilterNone(found, Named(fold, name));
    }
  }

  lemma AbsentName(fold: Fold, pairs: seq<Pair>, name: string)
    requires name !in Names(fold, pairs)
    ensures Filter(pairs, Named(fold, name)) == []
  {
    FilterNone(pairs, Named(fold, name));
  }

  lemma GivenNamed(fold: Fold, own: seq<Pair>, before: seq<Pair>, default: Pair, name: string)
    ensures Filter(Given(fold, own, before, default), Named(fold, name))
            == if fold(default.0) != name then []
               else if name !in Names(fold, own) then [default]
               else if name !in Names(fold, before) then Filter(own, Named(fold, name))
               else []
  {
    FilterFirst(default, [], Named(fold, name));
    assert [default] + [] == [default];
    GroupNamed(fold, own, fold(default.0), name);
  }

  lemma {:induction false} LaidNamed(fold: Fold, own: seq<Pair>, defaults: seq<Pair>, name: string)
    ensures Filter(Laid(fold, own, defaults), Named(fold, name))
            == if name !in Names(fold, own) then Filter(defaults, Named(fold, name))
               else if name in Names(fold, defaults) then Filter(own, Named(fold, name))
               else []
  {
    if defaults != [] {
      var before, default := defaults[..|defaults| - 1], defaults[|defaults| - 1];
      assert defaults == before + [default];
      LaidNamed(fold, own, before, name);
      NamesStep(fold, before, default);
      FilterLast(before, default, Named(fold, name));
      LaidLast(fold, own, before, default);
      FilterConcat(Laid(fold, own, before), Given(fold, own, before, default), Named(fold, name));
      GivenNamed(fold, own, before, default, name);
    }
  }

  /** Under every name, the overlay holds the request's own pairs if it has any and
      otherwise the default ones, in order. */
  lemma OwnElseDefault(fold: Fold, own: seq<Pair>, defaults: seq<Pair>, name: string)
    ensures Filter(Overlay(fold, own, defaults), Named(fold, name))
            == if name in Names(fold, own) then Filter(own, Named(fold, name)) else Filter(defaults, Named(fold, name))
  {
    var added := Filter(own, NamedOutside(fold, Names(fold, defaults)));
    FilterConcat(Laid(fold, own, defaults), added, Named(fold, name));
    LaidNamed(fold, own, defaults, name);
    AddedNamed(fold, own, Names(fold, defaults), name);
    if name !in Names(fold, own) {
      AbsentName(fold, own, name);
    }
  }

  /** In a reader's terms: looking a name up in the overlay is looking it up in the
      request's headers, or in the defaults where those have none. */
  lemma OverlayLookup(fold: Fold, own: seq<Pair>, defaults: seq<Pair>, name: string)
    ensures GetList(fold, Overlay(fold, own, defaults), name)
            == if Contains(fold, own, name) then GetList(fold, own, name) else GetList(fold, defaults, name)
    ensures GetItem(fold, Overlay(fold, own, defaults), name)
            == if Contains(fold, own, name) then GetItem(fold, own, name) else GetItem(fold, defaults, name)
  {
    OwnElseDefault(fold, own, defaults, fold(name));
    assert Contains(fold, own, name) <==> fold(name) in Names(fold, own);
  }

  lemma AddedNamed(fold: Fold, own: seq<Pair>, names: set<string>, name: string)
    ensures Filter(Filter(own, NamedOutside(fold, names)), Named(fold, name))
            == if name in names then [] else Filter(own, Named(fold, name))
  {
    var outside := NamedOutside(fold, names);
    if name in names {
      forall p | p in Filter(own, outside)
        ensures fold(p.0) != name
      {
        FilterMember(own, outside, p);
      }
      FilterNone(Filter(own, outside), Named(fold, name));
    } else {
      FilterThrough(own, outside, Named(fold, name));
    }
  }

  /** No pair is lost and none is made: the overlay holds the request's pairs and
      the defaults it does not override, each as often as they do. */
  lemma OverlayConserves(fold: Fold, own: seq<Pair>, defaults: seq<Pair>)
    ensures multiset(Overlay(fold, own, defaults))
            == multiset(own) + multiset(Filter(defaults, NamedOutside(fold, Names(fold, own))))
  {
    var result := Overlay(fold, own, defaults);
    var kept := Filter(defaults, NamedOutside(fold, Names(fold, own)));
    forall p: Pair
      ensures multiset(result)[p] == multiset(own)[p] + multiset(kept)[p]
    {
      var name := fold(p.0);
      OwnElseDefault(fold, own, defaults, name);
      FilterCount(result, Named(fold, name), p);
      FilterCount(own, Named(fold, name), p);
      FilterCount(defaults, Named(fold, name), p);
      FilterCount(defaults, NamedOutside(fold, Names(fold, own)), p);
      if name !in Names(fold, own) {
        AbsentName(fold, own, name);
      }
    }
  }

  // --- What the overlay orders ----------------------------------------------------

  /** The defaults that are not overridden keep their order. */
  lemma UntouchedKeepOrder(fold: Fold, own: seq<Pair>, defaults: seq<Pair>)
    ensures var untouched := NamedOutside(fold, Names(fold, own));
            Filter(Overlay(fold, own, defaults), untouched) == Filter(defaults, untouched)
  {
    var untouched := NamedOutside(fold, Names(fold, own));
    var added := Filter(own, NamedOutside(fold, Names(fold, defaults)));
    FilterConcat(Laid(fold, own, defaults), added, untouched);
    LaidUntouched(fold, own, defaults);
    OwnAreTouched(fold, own, NamedOutside(fold, Names(fold, defaults)));
  }

  lemma OwnAreTouched(fold: Fold, own: seq<Pair>, keep: Pair -> bool)
    ensures Filter(Filter(own, keep), NamedOutside(fold, Names(fold, own))) == []
  {
    forall p | p in Filter(own, keep)
      ensures fold(p.0) in Names(fold, own)
    {
      FilterMember(own, keep, p);
    }
    FilterNone(Filter(own, keep), NamedOutside(fold, Names(fold, own)));
  }

  lemma GivenUntouched(fold: Fold, own: seq<Pair>, before: seq<Pair>, default: Pair)
    ensures var untouched := NamedOutside(fold, Names(fold, own));
            Filter(Given(fold, own, before, default), untouched) == if untouched(default) then [default] else []
  {
    FilterFirst(default, [], NamedOutside(fold, Names(fold, own)));
    assert [default] + [] == [default];
    OwnAreTouched(fold, own, Named(fold, fold(default.0)));
  }

  lemma {:induction false} LaidUntouched(fold: Fold, own: seq<Pair>, defaults: seq<Pair>)
    ensures var untouched := NamedOutside(fold, Names(fold, own));
            Filter(Laid(fold, own, defaults), untouched) == Filter(defaults, untouched)
  {
    if defaults != [] {
      var untouched := NamedOutside(fold, Names(fold, own));
      var before, default := defaults[..|defaults| - 1], defaults[|defaults| - 1];
      assert defaults == before + [default];
      LaidUntouched(fold, own, before);
      FilterLast(before, default, untouched);
      LaidLast(fold, own, before, default);
      FilterConcat(Laid(fold, own, before), Given(fold, own, before, default), untouched);
      GivenUntouched(fold, own, before, default);
    }
  }

  /** Names not yet seen. */
  function Unseen(seen: seq<string>): string -> bool {
    n => n !in seen
  }

  lemma NameOrderLast(fold: Fold, init: seq<Pair>, last: Pair)
    ensures NameOrder(fold, init + [last])
            == if fold(last.0) in NameOrder(fold, init) then NameOrder(fold, init)
               else NameOrder(fold, init) + [fold(last.0)]
  {
    assert (init + [last])[..|init|] == init;
  }

  lemma {:induction false} NameOrderConcat(fold: Fold, a: seq<Pair>, b: seq<Pair>)
    ensures NameOrder(fold, a + b) == NameOrder(fold, a) + Filter(NameOrder(fold, b), Unseen(NameOrder(fold, a)))
    decreases |b|
  {
    if b == [] {
      assert a + b == a;
    } else {
      var init, last := b[..|b| - 1], b[|b| - 1];
      assert b == init + [last] && a + b == (a + init) + [last];
      NameOrderConcat(fold, a, init);
      NameOrderLast(fold, init, last);
      NameOrderLast(fold, a + init, last);
      var seen := Unseen(NameOrder(fold, a));
      FilterLast(NameOrder(fold, init), fold(last.0), seen);
      FilterMember(NameOrder(fold, init), seen, fold(last.0));
      Regroup(NameOrder(fold, a), Filter(NameOrder(fold, init), seen), [fold(last.0)]);
    }
  }

  lemma {:induction false} GroupOrder(fold: Fold, group: seq<Pair>, name: string)
    requires group != [] && forall p :: p in group ==> fold(p.0) == name
    ensures NameOrder(fold, group) == [name]
  {
    var init, last := group[..|group| - 1], group[|group| - 1];
    assert last in group && group == init + [last];
    NameOrderLast(fold, init, last);
    if init != [] {
      GroupOrder(fold, init, name);
    }
  }

  /** One step of the loop brings the name of its default, if it is new. */
  lemma GroupAppended(fold: Fold, own: seq<Pair>, before: seq<Pair>, name: string)
    requires name in Names(fold, own) && name !in NameOrder(fold, before)
    ensures NameOrder(fold, before + Filter(own, Named(fold, name))) == NameOrder(fold, before) + [name]
  {
    var group := Filter(own, Named(fold, name));
    var p :| p in own && fold(p.0) == name;
    FilterMember(own, Named(fold, name), p);
    forall q | q in group
      ensures fold(q.0) == name
    {
      FilterMember(own, Named(fold, name), q);
    }
    GroupOrder(fold, group, name);
    NameOrderConcat(fold, before, group);
    FilterFirst(name, [], Unseen(NameOrder(fold, before)));
    assert [name] + [] == [name];
  }

  lemma {:induction false} LaidOrder(fold: Fold, own: seq<Pair>, defaults: seq<Pair>)
    ensures NameOrder(fold, Laid(fold, own, defaults)) == NameOrder(fold, defaults)
  {
    if defaults != [] {
      var before, default := defaults[..|defaults| - 1], defaults[|defaults| - 1];
      assert defaults == before + [default];
      LaidOrder(fold, own, before);
      OrderedNames(fold, before);
      NameOrderLast(fold, before, default);
      LaidLast(fold, own, before, default);
      GivenOrder(fold, own, before, default);
    }
  }

  lemma GivenOrder(fold: Fold, own: seq<Pair>, before: seq<Pair>, default: Pair)
    requires NameOrder(fold, Laid(fold, own, before)) == NameOrder(fold, before)
    ensures var names := NameOrder(fold, before);
            NameOrder(fold, Laid(fold, own, before) + Given(fold, own, before, default))
            == if fold(default.0) in names then names else names + [fold(default.0)]
  {
    var laid := Laid(fold, own, before);
    OrderedNames(fold, before);
    if fold(default.0) !in Names(fold, own) {
      NameOrderLast(fold, laid, default);
    } else if fold(default.0) !in Names(fold, before) {
      GroupAppended(fold, own, laid, fold(default.0));
    } else {
      assert laid + [] == laid;
    }
  }

  function Outside(names: set<string>): string -> bool {
    n => n !in names
  }

  lemma {:induction false} AddedOrder(fold: Fold, own: seq<Pair>, names: set<string>)
    ensures NameOrder(fold, Filter(own, NamedOutside(fold, names))) == Filter(NameOrder(fold, own), Outside(names))
  {
    if own != [] {
      var init, last := own[..|own| - 1], own[|own| - 1];
      assert own == init + [last];
      AddedOrder(fold, init, names);
      var outside := Outside(names);
      var kept := Filter(init, NamedOutside(fold, names));
      assert kept + [] == kept && NameOrder(fold, kept) + [] == NameOrder(fold, kept);
      NameOrderLast(fold, init, last);
      FilterLast(init, last, NamedOutside(fold, names));
      FilterLast(NameOrder(fold, init), fold(last.0), outside);
      FilterMember(NameOrder(fold, init), outside, fold(last.0));
      NameOrderLast(fold, kept, last);
    }
  }

  /** The names go in the defaults' order, and the request's new names follow in
      their own: overriding a value moves nothing. */
  lemma OverlayOrder(fold: Fold, own: seq<Pair>, defaults: seq<Pair>)
    ensures NameOrder(fold, Overlay(fold, own, defaults))
            == NameOrder(fold, defaults) + Filter(NameOrder(fold, own), Outside(Names(fold, defaults)))
  {
    var names := Names(fold, defaults);
    var added := Filter(own, NamedOutside(fold, names));
    LaidOrder(fold, own, defaults);
    NameOrderConcat(fold, Laid(fold, own, defaults), added);
    AddedOrder(fold, own, names);
    OrderedNames(fold, defaults);
    forall n | n in NameOrder(fold, added)
      ensures Unseen(NameOrder(fold, defaults))(n)
    {
      FilterMember(NameOrder(fold, own), Outside(names), n);
    }
    FilterAll(NameOrder(fold, added), Unseen(NameOrder(fold, defaults)));
  }

  lemma {:induction false} LaidGrows(fold: Fold, own: seq<Pair>, defaults: seq<Pair>, k: nat)
    requires k <= |defaults|
    ensures Laid(fold, own, defaults[..k]) <= Laid(fold, own, defaults)
  {
    if k < |defaults| {
      var init := defaults[..|defaults| - 1];
      assert init[..k] == defaults[..k];
      LaidGrows(fold, own, init, k);
    } else {
      assert defaults[..k] == defaults;
    }
  }

  /** Behind `before` stands the group, and nowhere else the name. */
  ghost predicate Alone(fold: Fold, result: seq<Pair>, before: seq<Pair>, group: seq<Pair>, name: string) {
    && |before| + |group| <= |result|
    && result[..|before|] == before
    && result[|before|..|before| + |group|] == group
    && forall i :: 0 <= i < |result| && !(|before| <= i < |before| + |group|) ==> fold(result[i].0) != name
  }

  /** An overridden name's values stand together, in the place the name first has
      among the defaults: behind what the defaults before it gave, and nowhere else. */
  lemma OverriddenGroup(fold: Fold, own: seq<Pair>, defaults: seq<Pair>, k: nat)
    requires k < |defaults| && First(fold, defaults, k) && fold(defaults[k].0) in Names(fold, own)
    ensures var name, result := fold(defaults[k].0), Overlay(fold, own, defaults);
            Alone(fold, result, Laid(fold, own, defaults[..k]), Filter(own, Named(fold, name)), name)
  {
    var name, result := fold(defaults[k].0), Overlay(fold, own, defaults);
    var before, group := Laid(fold, own, defaults[..k]), Filter(own, Named(fold, name));
    GroupPlaced(fold, own, defaults, k);
    OwnElseDefault(fold, own, defaults, name);
    GroupNamed(fold, own, name, name);
    OnlyGroup(fold, before, group, result, name);
  }

  lemma GroupPlaced(fold: Fold, own: seq<Pair>, defaults: seq<Pair>, k: nat)
    requires k < |defaults| && First(fold, defaults, k) && fold(defaults[k].0) in Names(fold, own)
    ensures Laid(fold, own, defaults[..k]) + Filter(own, Named(fold, fold(defaults[k].0)))
            <= Overlay(fold, own, defaults)
  {
    assert defaults[..k + 1] == defaults[..k] + [defaults[k]];
    LaidLast(fold, own, defaults[..k], defaults[k]);
    LaidGrows(fold, own, defaults, k + 1);
  }

  /** A list with no more pairs of a name than one stretch of it has them all there. */
  lemma OnlyGroup(fold: Fold, before: seq<Pair>, group: seq<Pair>, result: seq<Pair>, name: string)
    requires before + group <= result
    requires Filter(result, Named(fold, name)) == group == Filter(group, Named(fold, name))
    ensures Alone(fold, result, before, group, name)
  {
    Pieces(before, group, result);
    var after := result[|before| + |group|..];
    FilterConcat(before + group, after, Named(fold, name));
    FilterConcat(before, group, Named(fold, name));
    NoneLeft(fold, before, name);
    NoneLeft(fold, after, name);
  }

  lemma NoneLeft(fold: Fold, pairs: seq<Pair>, name: string)
    requires |Filter(pairs, Named(fold, name))| == 0
    ensures forall p :: p in pairs ==> fold(p.0) != name
  {
    forall p | p in pairs
      ensures fold(p.0) != name
    {
      FilterMember(pairs, Named(fold, name), p);
    }
  }
}
