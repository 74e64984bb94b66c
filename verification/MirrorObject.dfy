/** The mirror over a physics world: a map from entities to body ids, and the bodies it owns there. */
module MirrorObject {
  import opened Prelude
  import opened Mirror

  /** Zero is no body. */
  type BodyId = nat

  /** A physics world, of which only its bodies count here: it hands out fresh ids, and refuses
      some definitions. */
  class World {
    const refuses: Refusal
    var live: map<BodyId, Definition>
    var next: BodyId

    ghost predicate Valid()
      reads this
    {
      next > 0 && forall b :: b in live ==> 0 < b < next
    }

    constructor (refuses: Refusal)
      ensures Valid() && live == map[] && this.refuses == refuses
    {
      this.refuses := refuses;
      live := map[];
      next := 1;
    }

    method CreateBody(d: Definition) returns (id: BodyId)
      requires Valid()
      modifies this
      ensures Valid() && (id == 0 <==> refuses(d))
      ensures id == 0 ==> live == old(live)
      ensures id != 0 ==> id !in old(live) && live == old(live)[id := d]
    {
      if refuses(d) {
        return 0;
      }
      id := next;
      live := live[id := d];
      next := next + 1;
    }

    method RemoveBody(id: BodyId) returns (removed: bool)
      requires Valid()
      modifies this
      ensures Valid() && live == old(live) - {id} && removed == (id in old(live))
    {
      removed := id in live;
      live := live - {id};
    }
  }

  /** Every listed body is live and the mirror's own, no two entities share one, the world's other
      bodies are untouched, and the world holds no body besides: none leak. */
  ghost predicate Owns(bodies: map<EntityId, BodyId>, live: map<BodyId, Definition>, others: map<BodyId, Definition>) {
    && (forall k :: k in bodies ==> bodies[k] in live && bodies[k] !in others)
    && (forall j, k :: j in bodies && k in bodies && bodies[j] == bodies[k] ==> j == k)
    && (forall b :: b in others ==> b in live && live[b] == others[b])
    && (forall b :: b in live ==> b in others || IsListed(bodies, b))
  }

  ghost predicate IsListed(bodies: map<EntityId, BodyId>, b: BodyId) {
    exists k :: k in bodies && bodies[k] == b
  }

  ghost function Through(bodies: map<EntityId, BodyId>, live: map<BodyId, Definition>): (m: Bodies)
    requires forall k :: k in bodies ==> bodies[k] in live
    ensures m.Keys == bodies.Keys && forall k :: k in m ==> m[k] == live[bodies[k]]
  {
    map k | k in bodies :: live[bodies[k]]
  }

  lemma OwnsListed(bodies: map<EntityId, BodyId>, live: map<BodyId, Definition>, others: map<BodyId, Definition>)
    requires Owns(bodies, live, others)
    ensures forall k :: k in bodies ==> bodies[k] in live
  {
  }

  lemma Dropped(bodies: map<EntityId, BodyId>, live: map<BodyId, Definition>, others: map<BodyId, Definition>, id: EntityId)
    requires Owns(bodies, live, others) && id in bodies
    ensures Owns(bodies - {id}, live - {bodies[id]}, others)
    ensures Through(bodies - {id}, live - {bodies[id]}) == Through(bodies, live) - {id}
  {
    hide IsListed;
    forall b | b in live - {bodies[id]} && b !in others
      ensures IsListed(bodies - {id}, b)
    {
      ListedLess(bodies, id, b);
    }
  }

  lemma ListedLess(bodies: map<EntityId, BodyId>, id: EntityId, b: BodyId)
    requires id in bodies && b != bodies[id] && IsListed(bodies, b)
    ensures IsListed(bodies - {id}, b)
  {
    var k :| k in bodies && bodies[k] == b;
    assert k in bodies - {id};
  }

  lemma ListedMore(bodies: map<EntityId, BodyId>, id: EntityId, b: BodyId, c: BodyId)
    requires id !in bodies && (c == b || IsListed(bodies, c))
    ensures IsListed(bodies[id := b], c)
  {
    if c == b {
      assert bodies[id := b][id] == c;
    } else {
      var k :| k in bodies && bodies[k] == c;
      assert bodies[id := b][k] == c;
    }
  }

  lemma Added(bodies: map<EntityId, BodyId>, live: map<BodyId, Definition>, others: map<BodyId, Definition>,
              id: EntityId, b: BodyId, d: Definition)
    requires Owns(bodies, live, others) && id !in bodies && b !in live
    ensures Owns(bodies[id := b], live[b := d], others)
    ensures Through(bodies[id := b], live[b := d]) == Through(bodies, live)[id := d]
  {
    hide IsListed;
    forall c | c in live[b := d] && c !in others
      ensures IsListed(bodies[id := b], c)
    {
      ListedMore(bodies, id, b, c);
    }
  }

  class StaticSceneMirror {
    const world: World
    var bodies: map<EntityId, BodyId>
    /** Bodies of the world that are none of the mirror's. */
    ghost const others: map<BodyId, Definition>

    constructor (world: World)
      requires world.Valid()
      ensures Valid() && this.world == world && others == world.live && Held() == map[]
    {
      this.world := world;
      bodies := map[];
      others := world.live;
    }

    ghost predicate Valid()
      reads this, world
    {
      world.Valid() && Owns(bodies, world.live, others)
    }

    /** What the mirror holds, entity by entity. */
    ghost function Held(): Bodies
      reads this, world
      requires Valid()
    {
      Through(bodies, world.live)
    }

    method BodyIdOf(id: EntityId) returns (b: BodyId)
      requires Valid()
      ensures b != 0 <==> id in Held()
      ensures b != 0 ==> b in world.live && world.live[b] == Held()[id]
    {
      return if id in bodies then bodies[id] else 0;
    }

    method Remove(id: EntityId) returns (removed: bool)
      requires Valid()
      modifies this`bodies, world
      ensures Valid() && Held() == old(Held()) - {id} && removed == (id in old(Held()))
    {
      hide Owns, Through;
      OwnsListed(bodies, world.live, others);
      if id !in bodies {
        return false;
      }
      Dropped(bodies, world.live, others, id);
      removed := world.RemoveBody(bodies[id]);
      bodies := bodies - {id};
    }

    /** Makes the new body first, so that a refusal leaves the old one standing. */
    method Put(id: EntityId, d: Definition) returns (ok: bool)
      requires Valid()
      modifies this`bodies, world
      ensures Valid() && ok == !world.refuses(d)
      ensures Held() == if ok then old(Held())[id := d] else old(Held())
    {
      hide Owns, Through;
      OwnsListed(bodies, world.live, others);
      var replacement := world.CreateBody(d);
      if replacement == 0 {
        return false;
      }
      if id in bodies {
        Dropped(bodies, old(world.live), others, id);
        Added(bodies - {id}, old(world.live) - {bodies[id]}, others, id, replacement, d);
        assert old(world.live)[replacement := d] - {bodies[id]} == (old(world.live) - {bodies[id]})[replacement := d];
        assert (bodies - {id})[id := replacement] == bodies[id := replacement];
        assert (old(Held()) - {id})[id := d] == old(Held())[id := d];
        var _ := world.RemoveBody(bodies[id]);
      } else {
        Added(bodies, old(world.live), others, id, replacement, d);
      }
      bodies := bodies[id := replacement];
      return true;
    }

    method SynchronizeEntity(id: EntityId, e: Entity, linked: Option<Motion>) returns (ok: bool)
      requires Valid()
      modifies this`bodies, world
      ensures Valid()
      ensures match Alone(id, e, linked)
        case None => ok && Held() == old(Held()) - {id}
        case Some(d) => ok == !world.refuses(d) && Held() == if ok then old(Held())[id := d] else old(Held())
    {
      hide Valid;
      if !e.hasObjectId || (e.parent != 0 && linked == None) || e.phantom || e.shapeless {
        var _ := Remove(id);
        return true;
      }
      ok := Put(id, Single(id, if linked.Some? then linked.value else if e.physical then Dynamic else Static, e.body));
    }

    method RemoveAll(ids: set<EntityId>)
      requires Valid()
      modifies this`bodies, world
      ensures Valid() && Held() == old(Held()) - ids
    {
      hide Owns, Through;
      var left := ids;
      while left != {}
        invariant Valid() && left <= ids && Held() == old(Held()) - (ids - left)
        decreases left
      {
        var id :| id in left;
        var _ := Remove(id);
        left := left - {id};
        assert old(Held()) - (ids - left) == (old(Held()) - (ids - left - {id})) - {id};
      }
    }

    /** One member that keeps a body of its own, `done` being the members before it. */
    method SynchronizeMember(s: Scene, root: EntityId, suspend: bool, k: EntityId, ghost m: Bodies, ghost done: set<EntityId>)
        returns (ok: bool)
      requires Valid() && IsRoot(s, root) && k in Linkset(s, root) && k !in done
      requires Held() == (m - done) + MemberBodies(s, root, suspend, done)
      requires !Refused(MemberBodies(s, root, suspend, done), world.refuses)
      modifies this`bodies, world
      ensures Valid()
      ensures ok ==> Held() == (m - (done + {k})) + MemberBodies(s, root, suspend, done + {k})
      ensures ok ==> !Refused(MemberBodies(s, root, suspend, done + {k}), world.refuses)
      ensures !ok ==> Held() == old(Held()) && Refused(MemberBodies(s, root, suspend, Linkset(s, root)), world.refuses)
    {
      hide Owns, Through, Children, Held, Valid, Refused, MemberBodies;
      MemberStep(m, s, root, suspend, done, k, world.refuses);
      AllInScene(s, root);
      if k == root {
        ok := SynchronizeEntity(k, s[k].(physical := s[k].physical && !suspend), None);
      } else {
        ok := SynchronizeEntity(k, s[k], Some(Static));
      }
      if !ok {
        RefusedEarly(s, root, suspend, done, k, world.refuses);
      }
    }

    /** Members that keep bodies of their own: the root first, then the children in any order,
        stopping at the first refusal. */
    method SynchronizeMembers(s: Scene, root: EntityId, suspend: bool) returns (ok: bool)
      requires Valid() && IsRoot(s, root)
      modifies this`bodies, world
      ensures Valid() && ok == !Refused(MemberBodies(s, root, suspend, Linkset(s, root)), world.refuses)
      ensures ok ==> Held() == (old(Held()) - Linkset(s, root)) + MemberBodies(s, root, suspend, Linkset(s, root))
      ensures Held() - Linkset(s, root) == old(Held()) - Linkset(s, root)
    {
      hide Owns, Through, Children, Held, Valid, Refused, MemberBodies, MemberBody;
      ghost var m := Held();
      ghost var done: set<EntityId> := {};
      NoMembersYet(m, s, root, suspend, world.refuses);
      NotOwnChild(s, root);
      ok := SynchronizeMember(s, root, suspend, root, m, done);
      if !ok {
        return false;
      }
      done := done + {root};
      var left := Children(s, root);
      while left != {}
        invariant Valid() && left <= Children(s, root) && done == Linkset(s, root) - left
        invariant Held() == (m - done) + MemberBodies(s, root, suspend, done)
        invariant !Refused(MemberBodies(s, root, suspend, done), world.refuses)
        decreases left
      {
        var k :| k in left;
        ok := SynchronizeMember(s, root, suspend, k, m, done);
        if !ok {
          OnlyDone(m, s, root, suspend, done);
          return false;
        }
        left := left - {k};
        done := done + {k};
      }
      assert done == Linkset(s, root);
      OnlyDone(m, s, root, suspend, done);
    }

    method GatherParts(s: Scene, root: EntityId) returns (parts: map<EntityId, int>)
      requires IsRoot(s, root)
      ensures parts == Parts(s, root)
    {
      hide Children;
      parts := map[];
      if Collidable(s[root]) {
        parts := parts[root := s[root].body];
      }
      var left := Children(s, root);
      NotOwnChild(s, root);
      while left != {}
        invariant left <= Children(s, root)
        invariant parts == map k | k in Linkset(s, root) - left && k in s && Collidable(s[k]) :: s[k].body
        decreases left
      {
        var k :| k in left;
        ChildInScene(s, root, k);
        if Collidable(s[k]) {
          parts := parts[k := s[k].body];
        }
        left := left - {k};
      }
      AllInScene(s, root);
    }

    method RemoveLinkset(s: Scene, root: EntityId)
      requires Valid()
      modifies this`bodies, world
      ensures Valid() && Held() == old(Held()) - Linkset(s, root)
    {
      hide Valid, Held, Children;
      var _ := Remove(root);
      RemoveAll(Children(s, root));
      assert old(Held()) - {root} - Children(s, root) == old(Held()) - Linkset(s, root);
    }

    /** A physical root with children: one compound of all the members that collide. */
    method SynchronizeCompound(s: Scene, root: EntityId, suspend: bool) returns (ok: bool)
      requires Valid() && IsRoot(s, root) && !s[root].phantom && OneBody(s, root)
      modifies this`bodies, world
      ensures Valid() && ok == !Refused(LinksetBodies(s, root, suspend), world.refuses)
      ensures ok ==> Held() == Replaced(old(Held()), s, root, suspend)
      ensures Held() - Linkset(s, root) == old(Held()) - Linkset(s, root)
    {
      hide Valid, Held, Children, Parts;
      var parts := GatherParts(s, root);
      if parts == map[] {
        RemoveLinkset(s, root);
        return true;
      }
      CompoundRefusal(s, root, suspend, world.refuses);
      NotOwnChild(s, root);
      ok := Put(root, Compound(root, if suspend then Static else Dynamic, s[root].body, parts));
      if !ok {
        return false;
      }
      RemoveAll(Children(s, root));
      assert old(Held())[root := LinksetBodies(s, root, suspend)[root]] - Children(s, root) == Replaced(old(Held()), s, root, suspend);
      return true;
    }

    /** One linkset, named by any of its members. */
    method SynchronizeLinkset(s: Scene, id: EntityId, suspend: bool) returns (ok: bool)
      requires Valid()
      modifies this`bodies, world
      ensures Valid() && ok == LinksetOk(s, id, suspend, world.refuses)
      ensures ok ==> Held() == Replaced(old(Held()), s, RootOf(s, id), suspend)
      ensures id in s ==> Held() - Linkset(s, RootOf(s, id)) == old(Held()) - Linkset(s, RootOf(s, id))
      ensures id !in s ==> Held() == old(Held())
    {
      hide Valid, Held, Children, Linkset, MemberBodies;
      if id !in s {
        return false;
      }
      var root := if s[id].parent == 0 then id else s[id].parent;
      if root !in s || s[root].parent != 0 {
        return false;
      }
      if s[root].phantom {
        RemoveLinkset(s, root);
        assert LinksetBodies(s, root, suspend) == map[];
        return true;
      }
      if !s[root].physical || Children(s, root) == {} {
        AsMembers(s, root, suspend);
        ok := SynchronizeMembers(s, root, suspend);
        return;
      }
      ok := SynchronizeCompound(s, root, suspend);
    }

    /** A full pass: every linkset in any order, then everything that should not be there goes.
        What the mirror holds then is a function of the scene alone. */
    method SynchronizeScene(s: Scene)
      requires Valid()
      modifies this`bodies, world
      ensures Valid() && Held() == Mirrored(s, world.refuses)
    {
      hide Valid, Held, LinksetOk, LinksetBodies, Linkset, ShouldStay, Mirrored, Settled, Stays;
      var present: set<EntityId> := {};
      var left := s.Keys;
      StayingAll(s, world.refuses);
      NothingSettled(Held(), s, world.refuses);
      while left != {}
        invariant Valid() && left <= s.Keys
        invariant Settled(Held(), s, s.Keys - left, world.refuses)
        invariant present == StayingSo(s, left, world.refuses)
        decreases left
      {
        var id :| id in left;
        ghost var m := Held();
        if s[id].parent == 0 {
          var ok := SynchronizeLinkset(s, id, false);
          OneMoreSettled(m, Held(), s, s.Keys - left, id, world.refuses);
          StayingOneMore(s, left, id, world.refuses);
          if ok {
            var staying := StayingMembers(s, id);
            present := present + staying;
          }
        } else {
          NotARoot(Held(), s, s.Keys - left, id, world.refuses);
          StayingNoMore(s, left, id, world.refuses);
        }
        assert s.Keys - (left - {id}) == (s.Keys - left) + {id};
        left := left - {id};
      }
      var stale := bodies.Keys - present;
      HeldKeys();
      assert s.Keys - left == s.Keys;
      StayingAll(s, world.refuses);
      Pruned(Held(), s, world.refuses);
      RemoveAll(stale);
    }

    lemma HeldKeys()
      requires Valid()
      ensures Held().Keys == bodies.Keys
    {
    }

    /** The members of a synchronized linkset whose bodies a full pass lets stand. */
    method StayingMembers(s: Scene, root: EntityId) returns (staying: set<EntityId>)
      requires IsRoot(s, root)
      ensures staying == set k | k in Linkset(s, root) && Stays(s, k)
    {
      hide HasCollidableChild;
      staying := {};
      AllInScene(s, root);
      NotOwnChild(s, root);
      if s[root].hasObjectId && !s[root].phantom
         && (!s[root].shapeless || (s[root].physical && HasCollidableChild(s, root))) {
        staying := {root};
      }
      if !s[root].physical {
        var left := Children(s, root);
        while left != {}
          invariant left <= Children(s, root)
          invariant staying == set k | k in Linkset(s, root) - left && k in s && Stays(s, k)
          decreases left
        {
          var k :| k in left;
          ChildInScene(s, root, k);
          if Collidable(s[k]) {
            staying := staying + {k};
          }
          left := left - {k};
        }
      }
    }
  }

  /** What a full pass asks of an entity whose linkset it could synchronize. */
  predicate Stays(s: Scene, k: EntityId) {
    && k in s
    && if s[k].parent == 0 then
         s[k].hasObjectId && !s[k].phantom && (!s[k].shapeless || (s[k].physical && HasCollidableChild(s, k)))
       else s[k].parent in s && !s[s[k].parent].physical && Collidable(s[k])
  }

  ghost function StayingSo(s: Scene, left: set<EntityId>, refuses: Refusal): set<EntityId> {
    set k | k in s && RootOf(s, k) !in left && ShouldStay(s, k, refuses)
  }

  lemma StayingOneMore(s: Scene, left: set<EntityId>, id: EntityId, refuses: Refusal)
    requires id in left && IsRoot(s, id)
    ensures StayingSo(s, left - {id}, refuses) == StayingSo(s, left, refuses)
      + if LinksetOk(s, id, false, refuses) then (set k | k in Linkset(s, id) && Stays(s, k)) else {}
  {
    hide LinksetBodies, HasCollidableChild;
    forall k | k in s && RootOf(s, k) == id
      ensures k in Linkset(s, id) && (ShouldStay(s, k, refuses) <==> LinksetOk(s, id, false, refuses) && Stays(s, k))
    {
      InOwnLinkset(s, k);
    }
    forall k | k in Linkset(s, id)
      ensures k in s && RootOf(s, k) == id
    {
      OneRoot(s, id, k);
    }
  }

  lemma StayingNoMore(s: Scene, left: set<EntityId>, id: EntityId, refuses: Refusal)
    requires id in s && s[id].parent != 0
    ensures StayingSo(s, left - {id}, refuses) == StayingSo(s, left, refuses)
  {
    hide LinksetBodies;
    forall k | k in s && RootOf(s, k) == id
      ensures !ShouldStay(s, k, refuses)
    {
    }
  }

  lemma StayingAll(s: Scene, refuses: Refusal)
    ensures StayingSo(s, {}, refuses) == set k | k in s && ShouldStay(s, k, refuses)
    ensures StayingSo(s, s.Keys, refuses) == {}
  {
    hide LinksetBodies;
    forall k | k in s && ShouldStay(s, k, refuses)
      ensures RootOf(s, k) in s.Keys
    {
    }
  }

  ghost function MemberBodies(s: Scene, root: EntityId, suspend: bool, done: set<EntityId>): Bodies
    requires IsRoot(s, root)
  {
    map k | k in done && k in Linkset(s, root) && MemberBody(s, root, suspend, k).Some? :: MemberBody(s, root, suspend, k).value
  }

  lemma NotOwnChild(s: Scene, root: EntityId)
    requires IsRoot(s, root)
    ensures root !in Children(s, root)
  {
  }

  lemma ChildInScene(s: Scene, root: EntityId, k: EntityId)
    requires k in Children(s, root)
    ensures k in s && s[k].parent == root
  {
  }

  lemma AllInScene(s: Scene, root: EntityId)
    requires IsRoot(s, root)
    ensures forall k :: k in Linkset(s, root) ==> k in s
  {
  }

  lemma MemberStep(m: Bodies, s: Scene, root: EntityId, suspend: bool, done: set<EntityId>, k: EntityId, refuses: Refusal)
    requires IsRoot(s, root) && k in Linkset(s, root) && k !in done
    ensures var next := (m - (done + {k})) + MemberBodies(s, root, suspend, done + {k});
      var now := (m - done) + MemberBodies(s, root, suspend, done);
      match MemberBody(s, root, suspend, k)
      case None => next == now - {k}
      case Some(d) => next == now[k := d]
    ensures Refused(MemberBodies(s, root, suspend, done + {k}), refuses)
      <==> Refused(MemberBodies(s, root, suspend, done), refuses)
           || (MemberBody(s, root, suspend, k).Some? && refuses(MemberBody(s, root, suspend, k).value))
  {
    hide MemberBody, Linkset;
    var a, b := MemberBodies(s, root, suspend, done), MemberBodies(s, root, suspend, done + {k});
    if MemberBody(s, root, suspend, k).Some? {
      assert b == a[k := MemberBody(s, root, suspend, k).value];
      assert b[k] == MemberBody(s, root, suspend, k).value;
      forall j | j in a
        ensures j in b && b[j] == a[j]
      {
      }
    } else {
      assert b == a;
    }
  }

  lemma NoMembersYet(m: Bodies, s: Scene, root: EntityId, suspend: bool, refuses: Refusal)
    requires IsRoot(s, root)
    ensures (m - {}) + MemberBodies(s, root, suspend, {}) == m && !Refused(MemberBodies(s, root, suspend, {}), refuses)
  {
  }

  lemma RefusedEarly(s: Scene, root: EntityId, suspend: bool, done: set<EntityId>, k: EntityId, refuses: Refusal)
    requires IsRoot(s, root) && k in Linkset(s, root)
    requires MemberBody(s, root, suspend, k).Some? && refuses(MemberBody(s, root, suspend, k).value)
    ensures Refused(MemberBodies(s, root, suspend, Linkset(s, root)), refuses)
  {
    hide MemberBody, Linkset;
    var all := MemberBodies(s, root, suspend, Linkset(s, root));
    assert k in all && refuses(all[k]);
  }

  lemma OnlyDone(m: Bodies, s: Scene, root: EntityId, suspend: bool, done: set<EntityId>)
    requires IsRoot(s, root) && done <= Linkset(s, root)
    ensures (m - done) + MemberBodies(s, root, suspend, done) - Linkset(s, root) == m - Linkset(s, root)
  {
    hide MemberBody, Linkset;
  }

  lemma AsMembers(s: Scene, root: EntityId, suspend: bool)
    requires IsRoot(s, root) && !s[root].phantom && !OneBody(s, root)
    ensures LinksetBodies(s, root, suspend) == MemberBodies(s, root, suspend, Linkset(s, root))
  {
    hide MemberBody, Linkset;
  }

  lemma CompoundRefusal(s: Scene, root: EntityId, suspend: bool, refuses: Refusal)
    requires IsRoot(s, root) && !s[root].phantom && OneBody(s, root) && Parts(s, root) != map[]
    ensures var d := Compound(root, if suspend then Static else Dynamic, s[root].body, Parts(s, root));
      LinksetBodies(s, root, suspend) == map[root := d] && (Refused(LinksetBodies(s, root, suspend), refuses) <==> refuses(d))
  {
    hide Parts;
    var bodies := LinksetBodies(s, root, suspend);
    assert root in bodies;
  }
}
