/**
 The two alias tables of the save service as values: `aliasToClass` maps
 every alias to a class name (several aliases may name one class) and
 `classToAlias` maps a class name to its primary alias. `AddAliases` and
 `MakeAliasEvents` specify what one `makeAlias` call does to them and to the
 log; the class in `Service` implements that call.
 */
module AliasRegistry {
  import opened ServiceLog

  datatype Tables = Tables(aliasToClass: map<string, string>, classToAlias: map<string, string>)

  /** `Properties.getProperty` followed by the service's fallback: a key
      that is not in the table stands for itself. */
  function Lookup(m: map<string, string>, s: string): (r: string)
    ensures s in m ==> r == m[s]
    ensures s !in m ==> r == s
  {
    if s in m then m[s] else s
  }

  /** The tables after `makeAlias` registered `aliases` (primary first) for
      `clazz`: every alias now names `clazz`, whatever it named before, the
      class's primary alias is the first one, and no other key changes. */
  function AddAliases(t: Tables, aliases: seq<string>, clazz: string): (r: Tables)
    requires aliases != []
    ensures r.aliasToClass.Keys == t.aliasToClass.Keys + set a | a in aliases
    ensures forall a :: a in aliases ==> r.aliasToClass[a] == clazz
    ensures forall a :: a in t.aliasToClass && a !in aliases ==> r.aliasToClass[a] == t.aliasToClass[a]
    ensures r.classToAlias.Keys == t.classToAlias.Keys + {clazz}
    ensures r.classToAlias[clazz] == aliases[0]
    ensures forall c :: c in t.classToAlias && c != clazz ==> r.classToAlias[c] == t.classToAlias[c]
  {
    Tables(Written(t.aliasToClass, aliases, clazz), t.classToAlias[clazz := aliases[0]])
  }

  /** `m` after every alias of `s` was set to `clazz`. */
  function Written(m: map<string, string>, s: seq<string>, clazz: string): map<string, string>
  {
    m + map a | a in s :: clazz
  }

  /** The collision errors logged while the aliases are written one after
      the other: one for every write to a key that already had a value, the
      same value included, reported under the primary alias. */
  function AliasWriteEvents(m: map<string, string>, aliases: seq<string>, primary: string, clazz: string): seq<Event>
    decreases |aliases|
  {
    if aliases == [] then []
    else
      (if aliases[0] in m then [DuplicateClass(primary, clazz, m[aliases[0]])] else [])
      + AliasWriteEvents(m[aliases[0] := clazz], aliases[1..], primary, clazz)
  }

  /** One more step of the write loop, seen from position `i`: the events
      logged so far, then this write's, then the rest's. */
  lemma AliasWriteEventsStep(m: map<string, string>, aliases: seq<string>, i: nat, primary: string, clazz: string, done: seq<Event>)
    requires i < |aliases|
    ensures
      var head := if aliases[i] in m then [DuplicateClass(primary, clazz, m[aliases[i]])] else [];
      (done + head) + AliasWriteEvents(m[aliases[i] := clazz], aliases[i + 1..], primary, clazz)
      == done + AliasWriteEvents(m, aliases[i..], primary, clazz)
  {
    assert aliases[i..][0] == aliases[i];
    assert aliases[i..][1..] == aliases[i + 1..];
  }

  /** Writing the aliases one by one builds the table `AddAliases` describes. */
  lemma WrittenStep(m: map<string, string>, aliases: seq<string>, i: nat, clazz: string)
    requires i < |aliases|
    ensures Written(m, aliases[..i], clazz)[aliases[i] := clazz] == Written(m, aliases[..i + 1], clazz)
  {
    assert aliases[..i + 1] == aliases[..i] + [aliases[i]];
  }

  /** Everything one `makeAlias` call logs: the alias collisions, then one
      error if the class already had a primary alias. */
  function MakeAliasEvents(t: Tables, aliases: seq<string>, clazz: string): seq<Event>
    requires aliases != []
  {
    AliasWriteEvents(t.aliasToClass, aliases, aliases[0], clazz)
    + (if clazz in t.classToAlias then [DuplicateAlias(clazz, aliases[0], t.classToAlias[clazz])] else [])
  }

  function Elements(s: seq<string>): set<string>
  {
    set a | a in s
  }

  /** One collision is logged per write that finds its key taken: all
      writes except the first writes of keys that were not in the table. */
  lemma {:induction false} AliasWriteEventsCount(m: map<string, string>, aliases: seq<string>, primary: string, clazz: string)
    ensures |AliasWriteEvents(m, aliases, primary, clazz)| == |aliases| - |Elements(aliases) - m.Keys|
    decreases |aliases|
  {
    if aliases != [] {
      var m' := m[aliases[0] := clazz];
      AliasWriteEventsCount(m', aliases[1..], primary, clazz);
      NewKeysCons(m, aliases, clazz);
    }
  }

  /** The first write adds its key to the table, if it is new. */
  lemma NewKeysCons(m: map<string, string>, aliases: seq<string>, clazz: string)
    requires aliases != []
    ensures |Elements(aliases) - m.Keys|
         == (if aliases[0] in m then 0 else 1) + |Elements(aliases[1..]) - m[aliases[0] := clazz].Keys|
  {
    var a0 := aliases[0];
    var newKeys, newKeys' := Elements(aliases) - m.Keys, Elements(aliases[1..]) - m[a0 := clazz].Keys;
    ElementsCons(aliases);
    if a0 in m {
      assert newKeys == newKeys';
    } else {
      assert newKeys == {a0} + newKeys';
      assert a0 !in newKeys';
    }
  }

  lemma ElementsCons(s: seq<string>)
    requires s != []
    ensures Elements(s) == {s[0]} + Elements(s[1..])
  {
    forall a | a in Elements(s) ensures a in {s[0]} + Elements(s[1..]) {
      var k :| 0 <= k < |s| && s[k] == a;
      if k > 0 {
        assert s[1..][k - 1] == a;
      }
    }
  }

  /** One `makeAlias` call logs one error per alias write that finds its
      key taken, plus one if the class already had a primary alias. */
  lemma MakeAliasEventsCount(t: Tables, aliases: seq<string>, clazz: string)
    requires aliases != []
    ensures |MakeAliasEvents(t, aliases, clazz)|
         == |aliases| - |Elements(aliases) - t.aliasToClass.Keys| + (if clazz in t.classToAlias then 1 else 0)
  {
    AliasWriteEventsCount(t.aliasToClass, aliases, aliases[0], clazz);
  }

  /** Fresh, distinct aliases are registered without a collision. */
  lemma {:induction false} AliasWriteEventsFresh(m: map<string, string>, aliases: seq<string>, primary: string, clazz: string)
    requires forall i, j :: 0 <= i < j < |aliases| ==> aliases[i] != aliases[j]
    requires forall a :: a in aliases ==> a !in m
    ensures AliasWriteEvents(m, aliases, primary, clazz) == []
    decreases |aliases|
  {
    if aliases != [] {
      var rest := aliases[1..];
      forall a | a in rest ensures a !in m[aliases[0] := clazz] {
        var k :| 0 <= k < |rest| && rest[k] == a;
        assert aliases[k + 1] == a;
      }
      AliasWriteEventsFresh(m[aliases[0] := clazz], rest, primary, clazz);
    }
  }

  /** Every class's primary alias leads back to that class. */
  predicate Consistent(t: Tables)
  {
    forall c :: c in t.classToAlias ==> Lookup(t.aliasToClass, t.classToAlias[c]) == c
  }

  /** The alias list takes over the primary alias of some other class. */
  predicate StealsPrimary(t: Tables, aliases: seq<string>, clazz: string)
  {
    exists c :: c in t.classToAlias && c != clazz && t.classToAlias[c] in aliases
  }

  /** Last write wins without a check: registering keeps every class's
      primary alias pointing back to it exactly when no alias of the list is
      already another class's primary alias. */
  lemma AddAliasesConsistentIff(t: Tables, aliases: seq<string>, clazz: string)
    requires aliases != [] && Consistent(t)
    ensures Consistent(AddAliases(t, aliases, clazz)) <==> !StealsPrimary(t, aliases, clazz)
  {
    var r := AddAliases(t, aliases, clazz);
    if StealsPrimary(t, aliases, clazz) {
      var c :| c in t.classToAlias && c != clazz && t.classToAlias[c] in aliases;
      assert Lookup(r.aliasToClass, r.classToAlias[c]) == clazz;
    } else {
      forall c | c in r.classToAlias ensures Lookup(r.aliasToClass, r.classToAlias[c]) == c {
        if c != clazz {
          var p := t.classToAlias[c];
          assert p !in aliases;
          assert Lookup(t.aliasToClass, p) == c;
        }
      }
    }
  }
}
