/**
  The baseline of role permissions: merging policies with their parent menus, and the difference that brings the
  database there (scripts/sync-role-menu-baseline.js:11-97, 111-206).
 */
module RoleMenus {
  import opened Options

  datatype Permission = Permission(create: bool, read: bool, update: bool, delete: bool, features: set<string>)

  const NOTHING := Permission(false, false, false, false, {})

  /** What `buildPermission` grants on a parent menu: reading only. */
  const READ := Permission(false, true, false, false, {})

  /** `mergePermissions` with a present permission; an absent one merges like `NOTHING`. */
  function Merge(a: Permission, b: Permission): Permission {
    Permission(a.create || b.create, a.read || b.read, a.update || b.update, a.delete
               || b.delete, a.features + b.features)
  }

  /** Merging is a join: order, grouping and repetition do not matter. */
  lemma MergeIsAJoin(a: Permission, b: Permission, c: Permission)
    ensures Merge(a, b) == Merge(b, a) && Merge(Merge(a, b), c) == Merge(a, Merge(b, c)) && Merge(a, a) == a
      && Merge(NOTHING, a) == a
  {
    assert a.features + b.features == b.features + a.features;
    assert a.features + b.features + c.features == a.features + (b.features + c.features);
    assert a.features + a.features == a.features && {} + a.features == a.features;
  }

  // ------------------------------------------------------------------------------- building the baseline

  datatype Key = Key(role: string, menu: string)

  type Store = map<Key, Permission>

  function Granted(store: Store, key: Key): Permission {
    if key in store then store[key] else NOTHING
  }

  function Added(store: Store, key: Key, p: Permission): Store {
    store[key := Merge(Granted(store, key), p)]
  }

  datatype Menu = Menu(id: string, parent: Option<string>)

  type Menus = map<string, Menu>

  predicate HasParent(menus: Menus, menu: Menu) {
    menu.parent.Some? && menu.parent.value != "" && menu.parent.value in menus
  }

  /** Menus form a forest: `depth` drops from a menu to its parent. */
  ghost predicate IsForest(menus: Menus, depth: map<string, nat>) {
    && (forall id | id in menus :: menus[id].id == id && id in depth)
    && (forall id | id in menus && HasParent(menus, menus[id]) :: depth[menus[id].parent.value] < depth[id])
  }

  /** The chain of parents up to a root or a missing menu. */
  ghost function Ancestors(menus: Menus, depth: map<string, nat>, menu: Menu): set<string>
    requires IsForest(menus, depth) && menu.id in menus && menus[menu.id] == menu
    decreases depth[menu.id]
  {
    if !HasParent(menus, menu) then {}
    else
      var parent := menus[menu.parent.value];
      {parent.id} + Ancestors(menus, depth, parent)
  }

  /** Each menu of the chain names the next as its parent, and all are there. */
  ghost predicate IsChain(menus: Menus, chain: seq<string>) {
    && (forall i | 0 <= i < |chain| :: chain[i] in menus)
    && (forall i | 0 < i < |chain| :: chain[i] != "" && menus[chain[i - 1]].parent == Some(chain[i]))
  }

  ghost predicate LeadsUp(menus: Menus, chain: seq<string>, from: string, to: string) {
    IsChain(menus, chain) && |chain| >= 2 && chain[0] == from && chain[|chain| - 1] == to
  }

  /** The menus above are those that a chain of parents leads to. */
  lemma {:induction false} AncestorsAreReached(menus: Menus, depth: map<string, nat>, menu: Menu, id: string)
    requires IsForest(menus, depth) && menu.id in menus && menus[menu.id] == menu
    ensures id in Ancestors(menus, depth, menu) <==> exists chain :: LeadsUp(menus, chain, menu.id, id)
    decreases depth[menu.id]
  {
    if HasParent(menus, menu) {
      var parent := menus[menu.parent.value];
      AncestorsAreReached(menus, depth, parent, id);
      if id == parent.id {
        assert LeadsUp(menus, [menu.id, id], menu.id, id);
      }
      if chain :| LeadsUp(menus, chain, parent.id, id) {
        var longer := [menu.id] + chain;
        assert forall i | 0 < i < |longer| :: longer[i] == chain[i - 1];
        assert LeadsUp(menus, longer, menu.id, id);
      }
    }
    if chain :| LeadsUp(menus, chain, menu.id, id) {
      assert menus[chain[0]].parent == Some(chain[1]);
      if |chain| > 2 {
        assert forall i | 0 < i < |chain| - 1 :: menus[chain[1..][i - 1]].parent == Some(chain[1..][i]);
        assert LeadsUp(menus, chain[1..], chain[1], id);
      }
    }
  }

  /** A policy that found its menu: what it grants there. */
  datatype Policy = Policy(role: string, menu: string, permission: Permission)

  ghost predicate Applies(q: Policy, key: Key, menus: Menus, depth: map<string, nat>)
    requires IsForest(menus, depth) && q.menu in menus
  {
    q.role == key.role && (q.menu == key.menu || key.menu in Ancestors(menus, depth, menus[q.menu]))
  }

  /** What one policy contributes to one key: its own permission on its menu, reading on the menus above. */
  ghost function Contribution(q: Policy, key: Key, menus: Menus, depth: map<string, nat>): Permission
    requires IsForest(menus, depth) && q.menu in menus
  {
    var own := if q.role == key.role && q.menu == key.menu then q.permission else NOTHING;
    var inherited := if q.role == key.role && key.menu in Ancestors(menus, depth, menus[q.menu]) then READ else NOTHING;
    Merge(own, inherited)
  }

  ghost predicate AreKnown(policies: seq<Policy>, menus: Menus) {
    forall i | 0 <= i < |policies| :: policies[i].menu in menus
  }

  /** The join of all contributions. */
  ghost function Joined(policies: seq<Policy>, key: Key, menus: Menus, depth: map<string, nat>): Permission
    requires IsForest(menus, depth) && AreKnown(policies, menus)
  {
    if policies == [] then NOTHING
    else
      var last := |policies| - 1;
      Merge(Joined(policies[..last], key, menus, depth), Contribution(policies[last], key, menus, depth))
  }

  ghost predicate IsMentioned(policies: seq<Policy>, key: Key, menus: Menus, depth: map<string, nat>)
    requires IsForest(menus, depth) && AreKnown(policies, menus)
  {
    exists i :: 0 <= i < |policies| && Applies(policies[i], key, menus, depth)
  }

  /** The store grants to each key mentioned by a policy the join of the policies, and nothing else. */
  ghost predicate IsBaseline(store: Store, policies: seq<Policy>, menus: Menus, depth: map<string, nat>)
    requires IsForest(menus, depth) && AreKnown(policies, menus)
  {
    && (forall key :: key in store <==> IsMentioned(policies, key, menus, depth))
    && (forall key | key in store :: store[key] == Joined(policies, key, menus, depth))
  }

  /** Merging what is granted on parents adds reading, and nothing else. */
  lemma MergingRead(p: Permission)
    ensures Merge(p, READ) == p.(read := true)
  {
    assert p.features + {} == p.features;
  }

  method AddParentReadPermissions(store: Store, menu: Menu, menus: Menus, role: string, ghost depth: map<string, nat>)
    returns (r: Store)
    requires IsForest(menus, depth) && menu.id in menus && menus[menu.id] == menu
    ensures forall key :: key in r <==> key in store || (key.role == role && key.menu in Ancestors(menus, depth, menu))
    ensures forall key | key in r ::
      r[key] == if key.role == role && key.menu in Ancestors(menus, depth, menu) then Granted(store, key).(read := true)
        else store[key]
  {
    r := store;
    var below := menu;
    ghost var above := {};
    ghost var all := Ancestors(menus, depth, menu);
    while HasParent(menus, below)
      invariant below.id in menus && menus[below.id] == below
      invariant all == above + Ancestors(menus, depth, below)
      invariant forall id | id in above :: id in depth && depth[below.id] <= depth[id]
      invariant forall key :: key in r <==> key in store || (key.role == role && key.menu in above)
      invariant forall key | key in r ::
        r[key] == if key.role == role && key.menu in above then Granted(store, key).(read := true) else store[key]
      decreases depth[below.id]
    {
      var parent := menus[below.parent.value];
      MergingRead(Granted(r, Key(role, parent.id)));
      r := Added(r, Key(role, parent.id), READ);
      above := above + {parent.id};
      below := parent;
    }
  }

  method BuildExpected(policies: seq<Policy>, menus: Menus, ghost depth: map<string, nat>) returns (store: Store)
    requires IsForest(menus, depth) && AreKnown(policies, menus)
    ensures IsBaseline(store, policies, menus, depth)
  {
    hide Ancestors, Merge, Joined;
    store := map[];
    NothingIsBaseline(menus, depth);
    for n := 0 to |policies|
      invariant AreKnown(policies[..n], menus) && IsBaseline(store, policies[..n], menus, depth)
    {
      var q := policies[n];
      ghost var before := store;
      store := Added(store, Key(q.role, q.menu), q.permission);
      ghost var own := store;
      store := AddParentReadPermissions(store, menus[q.menu], menus, q.role, depth);
      assert policies[..n + 1][..n] == policies[..n];
      OnePolicyMore(before, own, store, policies[..n], q, menus, depth);
      assert policies[..n] + [q] == policies[..n + 1];
    }
    assert policies[..|policies|] == policies;
  }

  lemma NothingIsBaseline(menus: Menus, depth: map<string, nat>)
    requires IsForest(menus, depth)
    ensures AreKnown([], menus) && IsBaseline(map[], [], menus, depth)
  {
  }

  lemma OnePolicyMore(before: Store, own: Store, after: Store, policies: seq<Policy>, q: Policy, menus: Menus,
                      depth: map<string, nat>)
    requires IsForest(menus, depth) && AreKnown(policies, menus) && q.menu in menus
    requires IsBaseline(before, policies, menus, depth) && own == Added(before, Key(q.role, q.menu), q.permission)
    requires forall key ::
      key in after <==> key in own || (key.role == q.role && key.menu in Ancestors(menus, depth, menus[q.menu]))
    requires forall key | key in after ::
      after[key] == if key.role == q.role && key.menu in Ancestors(menus, depth, menus[q.menu])
        then Granted(own, key).(read := true) else own[key]
    ensures AreKnown(policies + [q], menus) && IsBaseline(after, policies + [q], menus, depth)
  {
    hide Ancestors, Merge, IsForest, Joined, READ, NOTHING;
    var more := policies + [q];
    assert more[|policies|] == q;
    forall key
      ensures IsMentioned(more, key, menus, depth)
        <==> IsMentioned(policies, key, menus, depth) || Applies(q, key, menus, depth)
    {
      MentionedAppend(policies, q, key, menus, depth);
    }
    forall key | key in after
      ensures after[key] == Joined(more, key, menus, depth)
    {
      GrantedIsJoined(before, policies, key, menus, depth);
      JoinedAppend(policies, q, key, menus, depth);
      MergeLaws(Granted(before, key), q.permission, READ);
      MergingRead(Granted(own, key));
      GrantedAfter(before, q.role, q.menu, q.permission, key);
    }
  }

  lemma GrantedAfter(store: Store, role: string, menu: string, p: Permission, key: Key)
    ensures Granted(Added(store, Key(role, menu), p), key)
      == if key.role == role && key.menu == menu then Merge(Granted(store, key), p) else Granted(store, key)
  {
    hide Merge;
  }

  lemma GrantedIsJoined(store: Store, policies: seq<Policy>, key: Key, menus: Menus, depth: map<string, nat>)
    requires IsForest(menus, depth) && AreKnown(policies, menus) && IsBaseline(store, policies, menus, depth)
    ensures Granted(store, key) == Joined(policies, key, menus, depth)
  {
    hide IsForest, Joined;
    if key !in store {
      UnmentionedIsNothing(policies, key, menus, depth);
    }
  }

  lemma JoinedAppend(policies: seq<Policy>, q: Policy, key: Key, menus: Menus, depth: map<string, nat>)
    requires IsForest(menus, depth) && AreKnown(policies, menus) && q.menu in menus
    ensures AreKnown(policies + [q], menus)
    ensures Joined(policies + [q], key, menus, depth)
      == Merge(Joined(policies, key, menus, depth), Contribution(q, key, menus, depth))
  {
    hide IsForest, Merge, Contribution;
    assert (policies + [q])[..|policies|] == policies && (policies + [q])[|policies|] == q;
  }

  lemma MergeLaws(a: Permission, b: Permission, c: Permission)
    ensures Merge(Merge(a, b), c) == Merge(a, Merge(b, c)) && Merge(a, NOTHING) == a && Merge(NOTHING, b) == b
      && Merge(b, NOTHING) == b
    ensures Merge(NOTHING, c) == c && Merge(NOTHING, NOTHING) == NOTHING && Merge(NOTHING, a) == a
  {
    MergeIsAJoin(a, b, c);
    MergeIsAJoin(a, NOTHING, c);
    MergeIsAJoin(b, NOTHING, c);
    MergeIsAJoin(c, NOTHING, c);
  }

  lemma MentionedAppend(policies: seq<Policy>, q: Policy, key: Key, menus: Menus, depth: map<string, nat>)
    requires IsForest(menus, depth) && AreKnown(policies, menus) && q.menu in menus
    ensures AreKnown(policies + [q], menus)
    ensures IsMentioned(policies + [q], key, menus, depth)
      <==> IsMentioned(policies, key, menus, depth) || Applies(q, key, menus, depth)
  {
    hide Ancestors, IsForest;
    var more := policies + [q];
    assert more[|policies|] == q;
    if IsMentioned(policies, key, menus, depth) {
      var i :| 0 <= i < |policies| && Applies(policies[i], key, menus, depth);
      assert more[i] == policies[i];
    }
  }

  lemma {:induction false} UnmentionedIsNothing(policies: seq<Policy>, key: Key, menus: Menus, depth: map<string, nat>)
    requires IsForest(menus, depth) && AreKnown(policies, menus) && !IsMentioned(policies, key, menus, depth)
    ensures Joined(policies, key, menus, depth) == NOTHING
  {
    hide Ancestors, Merge, IsForest;
    if policies != [] {
      var last := |policies| - 1;
      assert forall i | 0 <= i < last :: policies[..last][i] == policies[i];
      UnmentionedIsNothing(policies[..last], key, menus, depth);
      MergeLaws(NOTHING, NOTHING, READ);
      assert !Applies(policies[last], key, menus, depth);
    }
  }

  /** Parents can be read wherever a menu below them is granted. */
  lemma {:induction false} AncestorsAreClosed(menus: Menus, depth: map<string, nat>, menu: Menu, id: string)
    requires IsForest(menus, depth) && menu.id in menus && menus[menu.id] == menu
    requires id == menu.id || id in Ancestors(menus, depth, menu)
    ensures id in menus && (HasParent(menus, menus[id]) ==> menus[id].parent.value in Ancestors(menus, depth, menu))
    decreases depth[menu.id]
  {
    if HasParent(menus, menu) && id != menu.id {
      AncestorsAreClosed(menus, depth, menus[menu.parent.value], id);
    }
  }

  ghost predicate CanRead(store: Store, key: Key) {
    key in store && store[key].read
  }

  lemma ParentsCanBeRead(store: Store, policies: seq<Policy>, menus: Menus, depth: map<string, nat>, key: Key)
    requires IsForest(menus, depth) && AreKnown(policies, menus) && IsBaseline(store, policies, menus, depth)
      && key in store
    ensures key.menu in menus
    ensures forall parent | menus[key.menu].parent == Some(parent) && parent != "" && parent in menus ::
      CanRead(store, Key(key.role, parent))
  {
    var i :| 0 <= i < |policies| && Applies(policies[i], key, menus, depth);
    var q := policies[i];
    AncestorsAreClosed(menus, depth, menus[q.menu], key.menu);
    hide Ancestors, IsForest, Merge;
    if HasParent(menus, menus[key.menu]) {
      var above := Key(key.role, menus[key.menu].parent.value);
      assert Applies(q, above, menus, depth);
      ContributionReads(q, above, menus, depth);
      JoinHas(policies, i, above, menus, depth);
    }
  }

  lemma ContributionReads(q: Policy, key: Key, menus: Menus, depth: map<string, nat>)
    requires IsForest(menus, depth) && q.menu in menus && q.role == key.role
      && key.menu in Ancestors(menus, depth, menus[q.menu])
    ensures Contribution(q, key, menus, depth).read
  {
    hide Ancestors, IsForest;
  }

  /** `a` grants nothing that `b` does not. */
  predicate IsBelow(a: Permission, b: Permission) {
    (a.create ==> b.create) && (a.read ==> b.read) && (a.update ==> b.update) && (a.delete ==> b.delete)
      && a.features <= b.features
  }

  /** The join is above each contribution. */
  lemma {:induction false} JoinHas(policies: seq<Policy>, i: nat, key: Key, menus: Menus, depth: map<string, nat>)
    requires IsForest(menus, depth) && AreKnown(policies, menus) && i < |policies|
    ensures IsBelow(Contribution(policies[i], key, menus, depth), Joined(policies, key, menus, depth))
  {
    hide Ancestors, IsForest, Contribution;
    var last := |policies| - 1;
    if i < last {
      JoinHas(policies[..last], i, key, menus, depth);
      assert policies[..last][i] == policies[i];
    }
  }

  /** The join is below anything above all contributions. */
  lemma {:induction false} JoinIsLeast(policies: seq<Policy>, key: Key, menus: Menus, depth: map<string, nat>,
                                       bound: Permission)
    requires IsForest(menus, depth) && AreKnown(policies, menus)
    requires forall i | 0 <= i < |policies| :: IsBelow(Contribution(policies[i], key, menus, depth), bound)
    ensures IsBelow(Joined(policies, key, menus, depth), bound)
  {
    hide Ancestors, IsForest, Contribution;
    if policies != [] {
      var last := |policies| - 1;
      assert forall i | 0 <= i < last :: policies[..last][i] == policies[i];
      JoinIsLeast(policies[..last], key, menus, depth, bound);
    }
  }

  /** The baseline depends on the set of policies, not on their order or repetition. */
  lemma BaselineIsOrderFree(a: Store, b: Store, ps: seq<Policy>, qs: seq<Policy>, menus: Menus, depth: map<string, nat>)
    requires IsForest(menus, depth) && AreKnown(ps, menus) && AreKnown(qs, menus) && forall q :: q in ps <==> q in qs
    requires IsBaseline(a, ps, menus, depth) && IsBaseline(b, qs, menus, depth)
    ensures a == b
  {
    hide Ancestors, IsForest, Joined, Applies;
    forall key
      ensures key in a <==> key in b
    {
      SameMentions(ps, qs, key, menus, depth);
      SameMentions(qs, ps, key, menus, depth);
    }
    forall key | key in a
      ensures a[key] == b[key]
    {
      JoinedBelow(ps, qs, key, menus, depth);
      JoinedBelow(qs, ps, key, menus, depth);
      assert a[key].features == b[key].features;
    }
  }

  lemma SameMentions(ps: seq<Policy>, qs: seq<Policy>, key: Key, menus: Menus, depth: map<string, nat>)
    requires IsForest(menus, depth) && AreKnown(ps, menus) && AreKnown(qs, menus) && forall q | q in ps :: q in qs
    ensures IsMentioned(ps, key, menus, depth) ==> IsMentioned(qs, key, menus, depth)
  {
    hide Applies, IsForest;
    if IsMentioned(ps, key, menus, depth) {
      var i :| 0 <= i < |ps| && Applies(ps[i], key, menus, depth);
      assert ps[i] in qs;
      var j :| 0 <= j < |qs| && qs[j] == ps[i];
    }
  }

  lemma JoinedBelow(ps: seq<Policy>, qs: seq<Policy>, key: Key, menus: Menus, depth: map<string, nat>)
    requires IsForest(menus, depth) && AreKnown(ps, menus) && AreKnown(qs, menus) && forall q | q in ps :: q in qs
    ensures IsBelow(Joined(ps, key, menus, depth), Joined(qs, key, menus, depth))
  {
    hide Contribution, IsForest, Joined, IsBelow;
    forall i | 0 <= i < |ps|
      ensures IsBelow(Contribution(ps[i], key, menus, depth), Joined(qs, key, menus, depth))
    {
      assert ps[i] in qs;
      var j :| 0 <= j < |qs| && qs[j] == ps[i];
      JoinHas(qs, j, key, menus, depth);
    }
    JoinIsLeast(ps, key, menus, depth, Joined(qs, key, menus, depth));
  }

  // -------------------------------------------------------------------------------------- the difference

  /** A row of `role_menus`. */
  datatype Record = Record(key: Key, permission: Permission)

  type Database = map<string, Record>

  /** The unique index on role and menu. */
  ghost predicate HasUniqueKeys(db: Database) {
    forall a, b | a in db && b in db && a != b :: db[a].key != db[b].key
  }

  datatype Creation = Creation(key: Key, permission: Permission)
  datatype Change = Change(id: string, permission: Permission)
  datatype Difference = Difference(creates: seq<Creation>, updates: seq<Change>, deletes: seq<string>)

  /** Rows of the managed roles only. */
  function Existing(db: Database, managed: set<string>): Database {
    map id | id in db && db[id].key.role in managed :: db[id]
  }

  ghost predicate HasRow(db: Database, key: Key) {
    exists id :: id in db && db[id].key == key
  }

  ghost predicate IsDifference(d: Difference, db: Database, expected: Store, managed: set<string>) {
    && (forall i, j | 0 <= i < j < |d.creates| :: d.creates[i].key != d.creates[j].key)
    && (forall c ::
          c in d.creates
          <==> c.key in expected && expected[c.key] == c.permission && !HasRow(Existing(db, managed), c.key))
    && (forall c :: c in d.updates <==>
          && c.id in Existing(db, managed) && db[c.id].key in expected && expected[db[c.id].key] == c.permission
          && db[c.id].permission != c.permission)
    && (forall id :: id in d.deletes <==> id in Existing(db, managed) && db[id].key !in expected)
  }

  method Compare(db: Database, expected: Store, managed: set<string>) returns (d: Difference)
    requires HasUniqueKeys(db)
    ensures IsDifference(d, db, expected, managed)
  {
    var existing := Existing(db, managed);
    var byKey: map<Key, string> := map[];
    var rest := existing.Keys;
    while rest != {}
      invariant rest <= existing.Keys
      invariant forall key | key in byKey :: byKey[key] in existing && existing[byKey[key]].key == key
      invariant forall id | id in existing && id !in rest :: existing[id].key in byKey
      decreases |rest|
    {
      var id :| id in rest;
      byKey := byKey[existing[id].key := id];
      rest := rest - {id};
    }
    var creates, updates := CompareExpected(existing, byKey, expected);
    var deletes := CompareExisting(existing, expected);
    d := Difference(creates, updates, deletes);
  }

  method CompareExpected(existing: Database, byKey: map<Key, string>, expected: Store) returns (creates: seq<Creation>,
      updates: seq<Change>)
    requires HasUniqueKeys(existing)
    requires forall key | key in byKey :: byKey[key] in existing && existing[byKey[key]].key == key
    requires forall id | id in existing :: existing[id].key in byKey
    ensures forall i, j | 0 <= i < j < |creates| :: creates[i].key != creates[j].key
    ensures forall c ::
      c in creates <==> c.key in expected && expected[c.key] == c.permission && !HasRow(existing, c.key)
    ensures forall c :: c in updates <==>
      && c.id in existing && existing[c.id].key in expected && expected[existing[c.id].key] == c.permission
      && existing[c.id].permission != c.permission
  {
    creates, updates := [], [];
    var rest := expected.Keys;
    while rest != {}
      invariant rest <= expected.Keys
      invariant forall i, j | 0 <= i < j < |creates| :: creates[i].key != creates[j].key
      invariant forall c :: c in creates <==>
        c.key in expected && c.key !in rest && expected[c.key] == c.permission && c.key !in byKey
      invariant forall c :: c in updates <==>
        && c.id in existing && existing[c.id].key in expected && existing[c.id].key !in rest
        && expected[existing[c.id].key] == c.permission && existing[c.id].permission != c.permission
      decreases |rest|
    {
      var key :| key in rest;
      var item := expected[key];
      if key !in byKey {
        creates := creates + [Creation(key, item)];
      } else if existing[byKey[key]].permission != item {
        updates := updates + [Change(byKey[key], item)];
      }
      rest := rest - {key};
    }
    assert forall key :: key in byKey <==> HasRow(existing, key);
  }

  method CompareExisting(existing: Database, expected: Store) returns (deletes: seq<string>)
    ensures forall id :: id in deletes <==> id in existing && existing[id].key !in expected
  {
    deletes := [];
    var rest := existing.Keys;
    while rest != {}
      invariant rest <= existing.Keys
      invariant forall id :: id in deletes <==> id in existing && id !in rest && existing[id].key !in expected
      decreases |rest|
    {
      var id :| id in rest;
      if existing[id].key !in expected {
        deletes := deletes + [id];
      }
      rest := rest - {id};
    }
  }

  // -------------------------------------------------------------------------------------- applying it

  function Create(db: Database, creates: seq<Creation>, ids: seq<string>): Database
    requires |ids| == |creates|
  {
    if creates == [] then db
    else
      var last := |creates| - 1;
      Create(db, creates[..last], ids[..last])[ids[last] := Record(creates[last].key, creates[last].permission)]
  }

  function Update(db: Database, updates: seq<Change>): Database {
    if updates == [] then db
    else
      var front, c := Update(db, updates[..|updates| - 1]), updates[|updates| - 1];
      if c.id in front then front[c.id := front[c.id].(permission := c.permission)] else front
  }

  function Delete(db: Database, deletes: seq<string>): Database {
    if deletes == [] then db else Delete(db, deletes[..|deletes| - 1]) - {deletes[|deletes| - 1]}
  }

  /** The transaction: creations under new ids, then updates, then deletions. */
  function Apply(db: Database, d: Difference, ids: seq<string>): Database
    requires |ids| == |d.creates|
  {
    Delete(Update(Create(db, d.creates, ids), d.updates), d.deletes)
  }

  predicate AreFresh(ids: seq<string>, db: Database) {
    && (forall i | 0 <= i < |ids| :: ids[i] !in db)
    && (forall i, j | 0 <= i < j < |ids| :: ids[i] != ids[j])
  }

  lemma {:induction false} CreateIs(db: Database, creates: seq<Creation>, ids: seq<string>)
    requires |ids| == |creates| && AreFresh(ids, db)
    ensures forall id :: id in Create(db, creates, ids) <==> id in db || id in ids
    ensures forall id | id in db :: Create(db, creates, ids)[id] == db[id]
    ensures forall i | 0 <= i < |ids| ::
      Create(db, creates, ids)[ids[i]] == Record(creates[i].key, creates[i].permission)
  {
    if creates != [] {
      var last := |creates| - 1;
      CreateIs(db, creates[..last], ids[..last]);
      assert ids == ids[..last] + [ids[last]];
    }
  }

  lemma {:induction false} UpdateIs(db: Database, updates: seq<Change>)
    requires forall c, e | c in updates && e in updates && c.id == e.id :: c == e
    ensures forall id :: id in Update(db, updates) <==> id in db
    ensures forall id | id in db :: Update(db, updates)[id].key == db[id].key
    ensures forall c | c in updates && c.id in db :: Update(db, updates)[c.id].permission == c.permission
    ensures forall id | id in db && (forall c | c in updates :: c.id != id) :: Update(db, updates)[id] == db[id]
  {
    if updates != [] {
      var last := |updates| - 1;
      UpdateIs(db, updates[..last]);
      assert updates == updates[..last] + [updates[last]];
    }
  }

  lemma {:induction false} DeleteIs(db: Database, deletes: seq<string>)
    ensures forall id :: id in Delete(db, deletes) <==> id in db && id !in deletes
    ensures forall id | id in Delete(db, deletes) :: Delete(db, deletes)[id] == db[id]
  {
    if deletes != [] {
      DeleteIs(db, deletes[..|deletes| - 1]);
      assert deletes == deletes[..|deletes| - 1] + [deletes[|deletes| - 1]];
    }
  }

  ghost predicate IsPlan(d: Difference, ids: seq<string>, db: Database, expected: Store, managed: set<string>) {
    && HasUniqueKeys(db) && IsDifference(d, db, expected, managed) && |ids| == |d.creates| && AreFresh(ids, db)
    && forall key | key in expected :: key.role in managed
  }

  /** The rows after the transaction: old rows that stay, brought up to date, and the new ones. */
  lemma RowsAfter(d: Difference, ids: seq<string>, db: Database, expected: Store, managed: set<string>)
    requires IsPlan(d, ids, db, expected, managed)
    ensures var after := Apply(db, d, ids);
      && (forall id :: id in after <==> (id in db && id !in d.deletes) || id in ids)
      && (forall id | id in db && id !in d.deletes ::
            after[id] == Record(db[id].key, if db[id].key in expected then expected[db[id].key] else db[id].permission))
      && (forall i | 0 <= i < |ids| :: after[ids[i]] == Record(d.creates[i].key, d.creates[i].permission))
  {
    var created := Create(db, d.creates, ids);
    var updated := Update(created, d.updates);
    CreateIs(db, d.creates, ids);
    UpdatesAreDistinct(d, db, expected, managed);
    UpdateIs(created, d.updates);
    DeleteIs(updated, d.deletes);
    hide Create, Update, Delete, HasUniqueKeys;
    forall id | id in db && id !in d.deletes
      ensures updated[id] == Record(db[id].key, if db[id].key in expected then expected[db[id].key]
                                    else db[id].permission)
    {
      OldRow(d, db, expected, managed, id);
      if db[id].key in expected && db[id].permission != expected[db[id].key] {
        assert Change(id, expected[db[id].key]) in d.updates;
      } else {
        assert forall c | c in d.updates :: c.id != id;
      }
    }
    forall i | 0 <= i < |ids|
      ensures updated[ids[i]] == created[ids[i]] && ids[i] !in d.deletes
    {
      assert ids[i] !in db && ids[i] in ids;
      assert forall c | c in d.updates :: c.id != ids[i];
    }
  }

  lemma UpdatesAreDistinct(d: Difference, db: Database, expected: Store, managed: set<string>)
    requires IsDifference(d, db, expected, managed)
    ensures forall c, e | c in d.updates && e in d.updates && c.id == e.id :: c == e
    ensures forall c | c in d.updates :: c.id in db
  {
  }

  lemma OldRow(d: Difference, db: Database, expected: Store, managed: set<string>, id: string)
    requires IsDifference(d, db, expected, managed) && id in db && forall key | key in expected :: key.role in managed
    ensures id in d.deletes <==> db[id].key.role in managed && db[id].key !in expected
    ensures db[id].key in expected ==>
      (forall p :: Change(id, p) in d.updates <==> p == expected[db[id].key] && db[id].permission != p)
    ensures db[id].key !in expected ==> (forall c | c in d.updates :: c.id != id)
  {
  }

  /**
    Applying the difference leaves the managed roles with exactly the expected permissions, once each, and every other
    role as it was; a second comparison finds nothing to do.
   */
  lemma SynchronisationConverges(d: Difference, ids: seq<string>, db: Database, expected: Store, managed: set<string>,
                                 again: Difference)
    requires IsPlan(d, ids, db, expected, managed)
    ensures var after := Apply(db, d, ids);
      && HasUniqueKeys(after)
      && (forall key: Key :: key.role in managed ==> (HasRow(after, key) <==> key in expected))
      && (forall id | id in after && after[id].key.role in managed :: after[id].permission == expected[after[id].key])
      && (forall id :: (id in after && after[id].key.role !in managed) <==> (id in db && db[id].key.role !in managed))
      && (forall id | id in db && db[id].key.role !in managed :: after[id] == db[id])
      && (IsDifference(again, after, expected, managed) ==> again == Difference([], [], []))
  {
    RowsAfter(d, ids, db, expected, managed);
    var after := Apply(db, d, ids);
    forall id | id in db
      ensures id in d.deletes <==> db[id].key.role in managed && db[id].key !in expected
    {
      OldRow(d, db, expected, managed, id);
    }
    NewRows(d, ids, db, expected, managed);
    hide Apply, AreFresh;
    UniqueAfter(d, ids, db, expected, managed, after);
    ExpectedAfter(d, ids, db, expected, managed, after);
    if IsDifference(again, after, expected, managed) {
      NothingToDo(again, after, expected, managed);
    }
  }

  lemma NewRows(d: Difference, ids: seq<string>, db: Database, expected: Store, managed: set<string>)
    requires IsPlan(d, ids, db, expected, managed)
    ensures forall i | 0 <= i < |ids| ::
      && d.creates[i].key in expected && expected[d.creates[i].key] == d.creates[i].permission
      && forall id | id in db :: db[id].key != d.creates[i].key
  {
    forall i | 0 <= i < |ids|
      ensures d.creates[i].key in expected && expected[d.creates[i].key] == d.creates[i].permission
      ensures forall id | id in db :: db[id].key != d.creates[i].key
    {
      assert d.creates[i] in d.creates;
      assert !HasRow(Existing(db, managed), d.creates[i].key);
      forall id | id in db
        ensures db[id].key != d.creates[i].key
      {
        assert db[id].key.role in managed ==> id in Existing(db, managed);
      }
    }
  }

  /** Facts about the rows after the transaction, in one place. */
  ghost predicate AreRowsAfter(after: Database, d: Difference, ids: seq<string>, db: Database, expected: Store,
                               managed: set<string>) {
    && |ids| == |d.creates|
    && (forall id :: id in after <==> (id in db && id !in d.deletes) || id in ids)
    && (forall id | id in db && id !in d.deletes ::
          after[id] == Record(db[id].key, if db[id].key in expected then expected[db[id].key] else db[id].permission))
    && (forall i | 0 <= i < |ids| :: after[ids[i]] == Record(d.creates[i].key, d.creates[i].permission))
    && (forall id | id in db :: id in d.deletes <==> db[id].key.role in managed && db[id].key !in expected)
    && (forall i | 0 <= i < |ids| ::
          && d.creates[i].key in expected && expected[d.creates[i].key] == d.creates[i].permission
          && forall id | id in db :: db[id].key != d.creates[i].key)
    && (forall i | 0 <= i < |ids| :: ids[i] !in db)
  }

  lemma UniqueAfter(d: Difference, ids: seq<string>, db: Database, expected: Store, managed: set<string>,
                    after: Database)
    requires IsPlan(d, ids, db, expected, managed) && AreRowsAfter(after, d, ids, db, expected, managed)
    ensures HasUniqueKeys(after)
  {
    hide AreFresh;
    forall a, b | a in after && b in after && a != b
      ensures after[a].key != after[b].key
    {
      if a in ids && b in ids {
        var i :| 0 <= i < |ids| && ids[i] == a;
        var j :| 0 <= j < |ids| && ids[j] == b;
        assert d.creates[i].key != d.creates[j].key;
      } else if a in ids {
        var i :| 0 <= i < |ids| && ids[i] == a;
      } else if b in ids {
        var j :| 0 <= j < |ids| && ids[j] == b;
      }
    }
  }

  lemma ExpectedAfter(d: Difference, ids: seq<string>, db: Database, expected: Store, managed: set<string>,
                      after: Database)
    requires IsPlan(d, ids, db, expected, managed) && AreRowsAfter(after, d, ids, db, expected, managed)
    ensures forall key: Key :: key.role in managed ==> (HasRow(after, key) <==> key in expected)
    ensures forall id | id in after && after[id].key.role in managed ::
      after[id].key in expected && after[id].permission == expected[after[id].key]
    ensures forall id :: (id in after && after[id].key.role !in managed) <==> (id in db && db[id].key.role !in managed)
    ensures forall id | id in db && db[id].key.role !in managed :: after[id] == db[id]
  {
    hide AreFresh, HasUniqueKeys;
    forall id | id in after
      ensures after[id].key.role in managed ==>
        after[id].key in expected && after[id].permission == expected[after[id].key]
      ensures after[id].key.role !in managed <==> id in db && db[id].key.role !in managed
    {
      if id in ids {
        var i :| 0 <= i < |ids| && ids[i] == id;
      }
    }
    forall key | key in expected
      ensures HasRow(after, key)
    {
      if HasRow(Existing(db, managed), key) {
        var id :| id in Existing(db, managed) && db[id].key == key;
        assert id in after && after[id].key == key;
      } else {
        assert Creation(key, expected[key]) in d.creates;
        var i :| 0 <= i < |d.creates| && d.creates[i] == Creation(key, expected[key]);
        assert ids[i] in after && after[ids[i]].key == key;
      }
    }
  }

  lemma NothingToDo(d: Difference, db: Database, expected: Store, managed: set<string>)
    requires IsDifference(d, db, expected, managed) && (forall key | key in expected :: key.role in managed)
    requires forall key: Key :: key.role in managed ==> (HasRow(db, key) <==> key in expected)
    requires forall id | id in db && db[id].key.role in managed ::
      db[id].key in expected && db[id].permission == expected[db[id].key]
    ensures d == Difference([], [], [])
  {
    forall key | key in expected
      ensures HasRow(Existing(db, managed), key)
    {
      assert HasRow(db, key);
      var id :| id in db && db[id].key == key;
      assert id in Existing(db, managed);
    }
    SomeMember(d.creates);
    SomeMember(d.updates);
    SomeMember(d.deletes);
  }

  lemma SomeMember<T>(s: seq<T>)
    ensures s != [] ==> exists x :: x in s
  {
    if s != [] {
      assert s[0] in s;
    }
  }
}
