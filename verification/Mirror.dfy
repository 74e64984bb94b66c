/** The bodies a world should hold for a scene. */
module Mirror {
  import opened Prelude

  type EntityId = nat

  datatype Motion = Static | Dynamic

  /** What the mirror reads of an entity. Its shape, mass, place and surface only pass through,
      so they stand together as one value. */
  datatype Entity = Entity(parent: EntityId, hasObjectId: bool, phantom: bool, shapeless: bool, physical: bool, body: int)

  /** The scene by entity id; id 0 is nobody, and a parent of 0 makes a root. */
  type Scene = m: map<EntityId, Entity> | 0 !in m

  datatype Definition =
    | Single(entity: EntityId, motion: Motion, body: int)
    | Compound(entity: EntityId, motion: Motion, body: int, parts: map<EntityId, int>)

  type Bodies = map<EntityId, Definition>

  /** The definitions the world refuses to build. */
  type Refusal = Definition -> bool

  predicate Collidable(e: Entity) {
    e.hasObjectId && !e.phantom && !e.shapeless
  }

  function Children(s: Scene, root: EntityId): set<EntityId> {
    set k | k in s && s[k].parent == root
  }

  function Linkset(s: Scene, root: EntityId): set<EntityId> {
    {root} + Children(s, root)
  }

  function RootOf(s: Scene, k: EntityId): EntityId
    requires k in s
  {
    if s[k].parent == 0 then k else s[k].parent
  }

  predicate IsRoot(s: Scene, root: EntityId) {
    root in s && s[root].parent == 0
  }

  // ----- one entity -----

  /** The body an entity has on its own, if any. */
  function Alone(id: EntityId, e: Entity, linked: Option<Motion>): Option<Definition> {
    if !Collidable(e) || (e.parent != 0 && linked.None?) then None
    else Some(Single(id, if linked.Some? then linked.value else if e.physical then Dynamic else Static, e.body))
  }

  // ----- one linkset -----

  function Parts(s: Scene, root: EntityId): (parts: map<EntityId, int>)
    requires IsRoot(s, root)
  {
    map k | k in Linkset(s, root) && Collidable(s[k]) :: s[k].body
  }

  predicate OneBody(s: Scene, root: EntityId)
    requires IsRoot(s, root)
  {
    s[root].physical && Children(s, root) != {}
  }

  /** The body of one member of a linkset that is not welded into one. */
  function MemberBody(s: Scene, root: EntityId, suspend: bool, k: EntityId): Option<Definition>
    requires IsRoot(s, root) && k in Linkset(s, root)
  {
    if k == root then Alone(k, s[k].(physical := s[k].physical && !suspend), None) else Alone(k, s[k], Some(Static))
  }

  /** The bodies a linkset should have: none when its root is phantom, one compound for a physical
      root with children, one each otherwise. */
  function LinksetBodies(s: Scene, root: EntityId, suspend: bool): (bodies: Bodies)
    requires IsRoot(s, root)
    ensures bodies.Keys <= Linkset(s, root)
  {
    if s[root].phantom then map[]
    else if !OneBody(s, root) then
      map k | k in Linkset(s, root) && MemberBody(s, root, suspend, k).Some? :: MemberBody(s, root, suspend, k).value
    else if Parts(s, root) == map[] then map[]
    else map[root := Compound(root, if suspend then Static else Dynamic, s[root].body, Parts(s, root))]
  }

  ghost predicate Refused(bodies: Bodies, refuses: Refusal) {
    exists k :: k in bodies && refuses(bodies[k])
  }

  ghost predicate LinksetOk(s: Scene, id: EntityId, suspend: bool, refuses: Refusal) {
    && id in s && IsRoot(s, RootOf(s, id))
    && !Refused(LinksetBodies(s, RootOf(s, id), suspend), refuses)
  }

  /** The mirror after a linkset was synchronized: the linkset's bodies replaced, the rest as before. */
  function Replaced(m: Bodies, s: Scene, root: EntityId, suspend: bool): Bodies
    requires IsRoot(s, root)
  {
    (m - Linkset(s, root)) + LinksetBodies(s, root, suspend)
  }

  // ----- the whole scene -----

  /** The entity should have a body of its own. A compound is kept only for a root that has an
      object id. */
  ghost predicate Kept(s: Scene, k: EntityId, refuses: Refusal) {
    && k in s && LinksetOk(s, k, false, refuses)
    && k in LinksetBodies(s, RootOf(s, k), false) && (k == RootOf(s, k) ==> s[k].hasObjectId)
  }

  /** What the world should hold for a scene: a function of the scene alone. */
  ghost function Mirrored(s: Scene, refuses: Refusal): Bodies {
    map k | k in s && Kept(s, k, refuses) :: LinksetBodies(s, RootOf(s, k), false)[k]
  }

  lemma OneRoot(s: Scene, root: EntityId, k: EntityId)
    requires IsRoot(s, root) && k in Linkset(s, root)
    ensures k in s && RootOf(s, k) == root
  {
  }

  lemma InOwnLinkset(s: Scene, k: EntityId)
    requires k in s && IsRoot(s, RootOf(s, k))
    ensures k in Linkset(s, RootOf(s, k))
  {
  }

  /** An edit inside one linkset: the same members under the same root, everything else alike. */
  ghost predicate EditedWithin(s: Scene, t: Scene, root: EntityId) {
    && t.Keys == s.Keys && IsRoot(s, root) && (forall k :: k in s ==> t[k].parent == s[k].parent)
    && forall k :: k in s && k !in Linkset(s, root) ==> t[k] == s[k]
  }

  lemma OthersAreAlike(s: Scene, t: Scene, root: EntityId, k: EntityId, refuses: Refusal)
    requires EditedWithin(s, t, root) && k in s && k !in Linkset(s, root)
    ensures RootOf(t, k) == RootOf(s, k)
    ensures IsRoot(s, RootOf(s, k)) ==>
      IsRoot(t, RootOf(t, k)) && LinksetBodies(t, RootOf(t, k), false) == LinksetBodies(s, RootOf(s, k), false)
    ensures Kept(t, k, refuses) <==> Kept(s, k, refuses)
  {
    var r := RootOf(s, k);
    assert Children(t, r) == Children(s, r);
    if IsRoot(s, r) {
      forall j | j in Linkset(s, r)
        ensures t[j] == s[j]
      {
        OneRoot(s, r, j);
        if j in Linkset(s, root) {
          OneRoot(s, root, j);
          InOwnLinkset(s, k);
        }
      }
      SameBodies(s, t, r);
    }
  }

  lemma SameBodies(s: Scene, t: Scene, r: EntityId)
    requires IsRoot(s, r) && IsRoot(t, r) && Children(t, r) == Children(s, r)
    requires forall j :: j in Linkset(s, r) ==> t[j] == s[j]
    ensures LinksetBodies(t, r, false) == LinksetBodies(s, r, false)
  {
    assert r in Linkset(s, r);
    assert Parts(t, r) == Parts(s, r);
  }

  /** Synchronizing the one linkset that was edited makes of the mirror what a full pass over the
      new scene would, exactly unless the linkset's compound hangs on a root without object id,
      which a full pass drops. */
  lemma LinksetSyncIsEnough(s: Scene, t: Scene, root: EntityId, refuses: Refusal)
    requires EditedWithin(s, t, root) && LinksetOk(t, root, false, refuses)
    ensures IsRoot(t, root)
    ensures Replaced(Mirrored(s, refuses), t, root, false) == Mirrored(t, refuses)
      <==> (root in LinksetBodies(t, root, false) ==> t[root].hasObjectId)
  {
    hide LinksetBodies, LinksetOk, EditedWithin, Kept;
    SameLinkset(s, t, root);
    var m := Replaced(Mirrored(s, refuses), t, root, false);
    forall k | k in s
      ensures k != root ==> (k in m <==> k in Mirrored(t, refuses))
      ensures k in m && k in Mirrored(t, refuses) ==> m[k] == Mirrored(t, refuses)[k]
    {
      if k in Linkset(t, root) {
        OneRoot(t, root, k);
        MemberKept(t, root, k, refuses);
      } else {
        OthersAreAlike(s, t, root, k, refuses);
        KeptHasRoot(s, k, refuses);
      }
    }
    forall k | k in m
      ensures k in s
    {
      if k in Linkset(t, root) {
        OneRoot(t, root, k);
      }
    }
    OneRoot(t, root, root);
    MemberKept(t, root, root, refuses);
  }

  /** A physical root without object id and one child that collides. */
  const NAMELESS: Scene := map[1 := Entity(0, false, false, false, true, 0), 2 := Entity(1, true, false, false, false, 0)]

  /** There it does not, though nothing was edited: a full pass drops the compound, and
      synchronizing the linkset puts it back. */
  lemma NamelessRootIsDropped(refuses: Refusal)
    requires forall d :: !refuses(d)
    ensures EditedWithin(NAMELESS, NAMELESS, 1) && LinksetOk(NAMELESS, 1, false, refuses)
    ensures Mirrored(NAMELESS, refuses) == map[]
    ensures Replaced(map[], NAMELESS, 1, false) == map[1 := Compound(1, Dynamic, 0, map[2 := 0])]
  {
    var s := NAMELESS;
    assert Children(s, 1) == {2};
    assert Parts(s, 1) == map[2 := 0] && 2 in Parts(s, 1) && OneBody(s, 1) by { assert 2 in Children(s, 1); }
    assert LinksetBodies(s, 1, false) == map[1 := Compound(1, Dynamic, 0, map[2 := 0])];
    assert !Kept(s, 1, refuses) && !Kept(s, 2, refuses);
  }

  lemma SameLinkset(s: Scene, t: Scene, root: EntityId)
    requires EditedWithin(s, t, root)
    ensures IsRoot(t, root) && Linkset(t, root) == Linkset(s, root) && t.Keys == s.Keys
  {
  }

  lemma MemberKept(t: Scene, root: EntityId, k: EntityId, refuses: Refusal)
    requires IsRoot(t, root) && k in Linkset(t, root) && LinksetOk(t, root, false, refuses)
    ensures Kept(t, k, refuses) <==> k in LinksetBodies(t, root, false) && (k == root ==> t[root].hasObjectId)
  {
    hide LinksetBodies;
    OneRoot(t, root, k);
  }

  lemma KeptHasRoot(s: Scene, k: EntityId, refuses: Refusal)
    ensures Kept(s, k, refuses) ==> k in s && IsRoot(s, RootOf(s, k))
  {
  }

  // ----- a full pass -----

  predicate HasCollidableChild(s: Scene, root: EntityId) {
    exists c :: c in s && s[c].parent == root && Collidable(s[c])
  }

  /** A full pass lets the entity's body stand. */
  ghost predicate ShouldStay(s: Scene, k: EntityId, refuses: Refusal)
    requires k in s
  {
    && LinksetOk(s, k, false, refuses)
    && if s[k].parent == 0 then
         s[k].hasObjectId && !s[k].phantom && (!s[k].shapeless || (s[k].physical && HasCollidableChild(s, k)))
       else !s[s[k].parent].physical && Collidable(s[k])
  }

  /** The linksets of the roots visited so far hold exactly their bodies. */
  ghost predicate Settled(m: Bodies, s: Scene, visited: set<EntityId>, refuses: Refusal) {
    forall r, k :: r in visited && r in s && IsRoot(s, r) && LinksetOk(s, r, false, refuses) && k in Linkset(s, r) ==>
      && (k in m <==> k in LinksetBodies(s, r, false))
      && (k in m ==> m[k] == LinksetBodies(s, r, false)[k])
  }

  lemma NothingSettled(m: Bodies, s: Scene, refuses: Refusal)
    ensures Settled(m, s, {}, refuses) && s.Keys - s.Keys == {}
  {
  }

  lemma NotARoot(m: Bodies, s: Scene, visited: set<EntityId>, id: EntityId, refuses: Refusal)
    requires Settled(m, s, visited, refuses) && id in s && s[id].parent != 0
    ensures Settled(m, s, visited + {id}, refuses)
  {
    hide Linkset, LinksetBodies, LinksetOk;
  }

  lemma DistinctRoots(s: Scene, r: EntityId, q: EntityId)
    requires IsRoot(s, r) && IsRoot(s, q) && r != q
    ensures Linkset(s, r) !! Linkset(s, q)
  {
    forall k | k in Linkset(s, r)
      ensures k !in Linkset(s, q)
    {
      OneRoot(s, r, k);
      if k in Linkset(s, q) {
        OneRoot(s, q, k);
      }
    }
  }

  lemma OneMoreSettled(m: Bodies, n: Bodies, s: Scene, visited: set<EntityId>, id: EntityId, refuses: Refusal)
    requires Settled(m, s, visited, refuses) && IsRoot(s, id) && id !in visited
    requires LinksetOk(s, id, false, refuses) ==> n == Replaced(m, s, id, false)
    requires n - Linkset(s, id) == m - Linkset(s, id)
    ensures Settled(n, s, visited + {id}, refuses)
  {
    hide Linkset, LinksetBodies, LinksetOk;
    forall r, k | r in visited + {id} && r in s && IsRoot(s, r) && LinksetOk(s, r, false, refuses) && k in Linkset(s, r)
      ensures k in n <==> k in LinksetBodies(s, r, false)
      ensures k in n ==> n[k] == LinksetBodies(s, r, false)[k]
    {
      if r != id {
        DistinctRoots(s, r, id);
        assert k in n <==> k in n - Linkset(s, id);
        assert k in m <==> k in m - Linkset(s, id);
        if k in n {
          assert n[k] == (n - Linkset(s, id))[k] == m[k];
        }
      }
    }
  }

  /** Who stays agrees with who should have a body, among those that have one. */
  lemma StaysIfKept(s: Scene, k: EntityId, refuses: Refusal)
    requires k in s && LinksetOk(s, k, false, refuses) && k in LinksetBodies(s, RootOf(s, k), false)
    ensures ShouldStay(s, k, refuses) <==> Kept(s, k, refuses)
  {
    var r := RootOf(s, k);
    if k == r && OneBody(s, r) {
      PartsCollide(s, r);
    }
  }

  lemma PartsCollide(s: Scene, root: EntityId)
    requires IsRoot(s, root)
    ensures Parts(s, root) != map[] <==> Collidable(s[root]) || HasCollidableChild(s, root)
  {
    if Collidable(s[root]) {
      assert root in Parts(s, root);
    } else if HasCollidableChild(s, root) {
      var c :| c in s && s[c].parent == root && Collidable(s[c]);
      assert c in Parts(s, root);
    } else {
      forall k | k in Linkset(s, root)
        ensures !Collidable(s[k])
      {
      }
      assert Parts(s, root) == map[];
    }
  }

  /** After every linkset is settled and what should not stay is gone, what is left is the mirror
      of the scene. */
  lemma Pruned(m: Bodies, s: Scene, refuses: Refusal)
    requires Settled(m, s, s.Keys, refuses)
    ensures m - (m.Keys - set k | k in s && ShouldStay(s, k, refuses)) == Mirrored(s, refuses)
  {
    hide LinksetBodies, LinksetOk, Linkset, ShouldStay, Kept;
    var n := m - (m.Keys - set k | k in s && ShouldStay(s, k, refuses));
    forall k | k in s
      ensures k in n <==> k in Mirrored(s, refuses)
      ensures k in n ==> n[k] == Mirrored(s, refuses)[k]
    {
      StaysOrKept(s, k, refuses);
      if ShouldStay(s, k, refuses) || Kept(s, k, refuses) {
        var r := RootOf(s, k);
        InOwnLinkset(s, k);
        assert r in s.Keys && IsRoot(s, r) && LinksetOk(s, r, false, refuses) && k in Linkset(s, r);
        if k in LinksetBodies(s, r, false) {
          StaysIfKept(s, k, refuses);
        }
      }
    }
  }

  lemma StaysOrKept(s: Scene, k: EntityId, refuses: Refusal)
    requires k in s
    ensures ShouldStay(s, k, refuses) || Kept(s, k, refuses) ==>
      IsRoot(s, RootOf(s, k)) && LinksetOk(s, k, false, refuses) && LinksetOk(s, RootOf(s, k), false, refuses)
    ensures Kept(s, k, refuses) ==> k in LinksetBodies(s, RootOf(s, k), false)
  {
    hide LinksetBodies;
  }
}
