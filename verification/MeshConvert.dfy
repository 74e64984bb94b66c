/** Renumbering in the mesh converter keeps what indices mean. */
module MeshConvert {
  import opened Prelude
  import opened MeshQuantize
  import opened MeshAsset

  // ----- first uses -----

  /** The distinct elements in the order they first occur. */
  function FirstUses(s: seq<nat>): seq<nat>
    decreases |s|
  {
    if s == [] then []
    else
      var front := FirstUses(s[..|s| - 1]);
      if s[|s| - 1] in front then front else front + [s[|s| - 1]]
  }

  lemma FirstUsesOneMore(s: seq<nat>, x: nat)
    ensures FirstUses(s + [x]) == if x in FirstUses(s) then FirstUses(s) else FirstUses(s) + [x]
  {
    assert (s + [x])[..|s|] == s;
  }

  /** Every element once and no other, each new one after those used before it. */
  lemma {:induction false} FirstUsesLaws(s: seq<nat>)
    ensures Distinct(FirstUses(s)) && forall x :: x in FirstUses(s) <==> x in s
    ensures forall n: nat :: n <= |s| ==> FirstUses(s[..n]) <= FirstUses(s)
    decreases |s|
  {
    if s == [] {
      assert forall n: nat :: n <= |s| ==> s[..n] == s;
    } else {
      var front, last := s[..|s| - 1], s[|s| - 1];
      FirstUsesLaws(front);
      assert forall x :: x in s <==> x in front || x == last;
      forall n: nat | n <= |s|
        ensures FirstUses(s[..n]) <= FirstUses(s)
      {
        if n == |s| {
          assert s[..n] == s;
        } else {
          assert s[..n] == front[..n];
        }
      }
    }
  }

  // ----- a level's vertices -----

  /** A vertex of the source bound to a joint of the source's own table. */
  datatype SourceInfluence = SourceInfluence(joint: nat, weight: Float)

  /** A face of the source. */
  datatype Face = Face(
    positions: seq<Vec3>, normals: seq<Vec3>, texcoords: seq<Vec2>, influences: seq<seq<SourceInfluence>>,
    missingNormals: bool, missingTexcoords: bool)

  const MAX_VERTICES: nat := 65535
  const NO_VERTICES: Submesh := Submesh([], [], [], [], [])

  /** Attributes that are carried are carried for every vertex. */
  predicate Shaped(f: Face) {
    && (f.influences == [] || |f.influences| == |f.positions|)
    && (!f.missingNormals ==> |f.normals| == |f.positions|)
    && (!f.missingTexcoords ==> |f.texcoords| == |f.positions|)
  }

  predicate JointsKnown(bound: seq<SourceInfluence>, slots: seq<nat>) {
    forall b :: b in bound ==> b.joint < |slots|
  }

  /** Influences renumbered into the compacted joint table. */
  function Rebound(bound: seq<SourceInfluence>, slots: seq<nat>): (r: seq<Influence>)
    requires JointsKnown(bound, slots)
    ensures |r| == |bound| && forall i :: 0 <= i < |r| ==> r[i] == Influence(slots[bound[i].joint] % 256, bound[i].weight)
  {
    seq(|bound|, i requires 0 <= i < |bound| && JointsKnown(bound, slots) =>
      assert bound[i] in bound; Influence(slots[bound[i].joint] % 256, bound[i].weight))
  }

  /** The level can be carried: every index is a vertex, every used vertex binds known joints, and
      the used vertices are few enough. */
  predicate Carriable(f: Face, indices: seq<nat>, slots: seq<nat>) {
    && (forall i :: i in indices ==> i < |f.positions|)
    && (f.influences != [] ==> forall i :: i in indices && i < |f.influences| ==> JointsKnown(f.influences[i], slots))
    && |FirstUses(indices)| <= MAX_VERTICES
  }

  /** Emitted vertex `k` is the source's vertex `v`, in everything it carries. */
  predicate SameVertex(f: Face, slots: seq<nat>, m: Submesh, k: nat, v: nat) {
    && k < |m.positions| && v < |f.positions| && m.positions[k] == f.positions[v]
    && (!f.missingNormals ==> k < |m.normals| && v < |f.normals| && m.normals[k] == f.normals[v])
    && (!f.missingTexcoords ==> k < |m.texcoords| && v < |f.texcoords| && m.texcoords[k] == f.texcoords[v])
    && (f.influences != [] ==>
          k < |m.influences| && v < |f.influences| && JointsKnown(f.influences[v], slots)
          && m.influences[k] == Rebound(f.influences[v], slots))
  }

  /** Each used vertex once, in the order of first use, and nothing else. */
  predicate VerticesOf(f: Face, slots: seq<nat>, m: Submesh, used: seq<nat>) {
    && |m.positions| == |used|
    && |m.normals| == (if f.missingNormals then 0 else |used|) && |m.texcoords| == (if f.missingTexcoords then 0 else |used|)
    && |m.influences| == (if f.influences == [] then 0 else |used|)
    && forall k: nat :: k < |used| ==> SameVertex(f, slots, m, k, used[k])
  }

  predicate IndicesOf(m: Submesh, indices: seq<nat>, used: seq<nat>) {
    && |m.indices| == |indices|
    && forall k: nat :: k < |indices| ==> m.indices[k] < |used| && used[m.indices[k]] == indices[k]
  }

  /** A submesh of the vertices a level uses: its k-th index names the vertex the k-th source index
      named, and its vertices are the used ones, once each, in first-use order. */
  method ToSubmesh(f: Face, indices: seq<nat>, slots: seq<nat>) returns (r: Option<Submesh>)
    requires Shaped(f)
    ensures r.Some? <==> Carriable(f, indices, slots)
    ensures r.Some? ==> VerticesOf(f, slots, r.value, FirstUses(indices)) && IndicesOf(r.value, indices, FirstUses(indices))
    ensures r.Some? ==> |r.value.positions| <= MAX_VERTICES && forall i :: i in r.value.indices ==> i < MAX_VERTICES
  {
    hide FirstUses, JointsKnown, VerticesOf, IndicesOf, Emitted;
    var m := NO_VERTICES;
    var remap: map<nat, nat> := map[];
    NothingUsed(f, slots);
    var n := 0;
    assert indices[..0] == [];
    while n < |indices|
      invariant n <= |indices| && Carriable(f, indices[..n], slots)
      invariant VerticesOf(f, slots, m, FirstUses(indices[..n])) && IndicesOf(m, indices[..n], FirstUses(indices[..n]))
      invariant |m.positions| == |FirstUses(indices[..n])| && forall v :: v in remap <==> v in FirstUses(indices[..n])
      invariant forall v :: v in remap ==> remap[v] < |m.positions| && FirstUses(indices[..n])[remap[v]] == v
    {
      var v := indices[n];
      ghost var used, before := FirstUses(indices[..n]), m;
      assert indices[..n + 1] == indices[..n] + [v];
      FirstUsesOneMore(indices[..n], v);
      assert v in indices;
      if v >= |f.positions| {
        return None;
      }
      if v !in remap {
        var bound: Option<seq<Influence>> := None;
        if f.influences != [] {
          bound := Rebind(f.influences[v], slots);
          if bound == None {
            return None;
          }
        }
        m := Emitted(f, slots, m, v, bound, used);
        remap := remap[v := |m.positions| - 1];
      }
      if |m.positions| > MAX_VERTICES {
        FewerBefore(indices, n + 1);
        return None;
      }
      CarriesOneMore(f, indices, slots, n);
      OneMoreIndex(before, m, indices[..n], used, FirstUses(indices[..n + 1]), remap[v], v);
      SameButIndices(f, slots, m, FirstUses(indices[..n + 1]), m.indices + [remap[v]]);
      m := m.(indices := m.indices + [remap[v]]);
      n := n + 1;
    }
    assert indices[..n] == indices;
    AllSmall(m, indices, FirstUses(indices));
    return Some(m);
  }

  lemma NothingUsed(f: Face, slots: seq<nat>)
    ensures FirstUses([]) == []
    ensures VerticesOf(f, slots, NO_VERTICES, []) && IndicesOf(NO_VERTICES, [], [])
  {
  }

  lemma AllSmall(m: Submesh, indices: seq<nat>, used: seq<nat>)
    requires IndicesOf(m, indices, used)
    ensures forall i :: i in m.indices ==> i < |used|
  {
  }

  lemma OneMoreIndex(before: Submesh, m: Submesh, indices: seq<nat>, used: seq<nat>, more: seq<nat>, x: uint16, v: nat)
    requires IndicesOf(before, indices, used) && m.indices == before.indices && used <= more && x < |more| && more[x] == v
    ensures IndicesOf(m.(indices := m.indices + [x]), indices + [v], more)
  {
  }

  lemma SameButIndices(f: Face, slots: seq<nat>, m: Submesh, used: seq<nat>, indices: seq<uint16>)
    requires VerticesOf(f, slots, m, used)
    ensures VerticesOf(f, slots, m.(indices := indices), used)
  {
    assert forall k: nat :: k < |used| ==> SameVertex(f, slots, m, k, used[k]);
  }

  lemma FewerBefore(indices: seq<nat>, n: nat)
    requires n <= |indices|
    ensures |FirstUses(indices[..n])| <= |FirstUses(indices)|
  {
    FirstUsesLaws(indices);
  }

  lemma CarriesOneMore(f: Face, indices: seq<nat>, slots: seq<nat>, n: nat)
    requires n < |indices| && Shaped(f) && Carriable(f, indices[..n], slots)
    requires indices[n] < |f.positions| && |FirstUses(indices[..n + 1])| <= MAX_VERTICES
    requires f.influences != [] && indices[n] !in FirstUses(indices[..n]) ==> JointsKnown(f.influences[indices[n]], slots)
    ensures Carriable(f, indices[..n + 1], slots)
  {
    hide FirstUses, JointsKnown;
    assert indices[..n + 1] == indices[..n] + [indices[n]];
    FirstUsesLaws(indices[..n]);
  }

  method Rebind(bound: seq<SourceInfluence>, slots: seq<nat>) returns (r: Option<seq<Influence>>)
    ensures r.Some? <==> JointsKnown(bound, slots)
    ensures r.Some? ==> r.value == Rebound(bound, slots)
  {
    var out: seq<Influence> := [];
    var i := 0;
    while i < |bound|
      invariant i <= |bound| == |bound| && |out| == i
      invariant forall j :: 0 <= j < i ==> bound[j].joint < |slots| && out[j] == Influence(slots[bound[j].joint] % 256, bound[j].weight)
    {
      if bound[i].joint >= |slots| {
        assert bound[i] in bound;
        return None;
      }
      out := out + [Influence(slots[bound[i].joint] % 256, bound[i].weight)];
      i := i + 1;
    }
    return Some(out);
  }

  /** One more vertex on every list that is carried. */
  function Emitted(f: Face, slots: seq<nat>, m: Submesh, v: nat, bound: Option<seq<Influence>>, ghost used: seq<nat>): (r: Submesh)
    requires Shaped(f) && v < |f.positions| && VerticesOf(f, slots, m, used)
    requires f.influences != [] ==> JointsKnown(f.influences[v], slots) && bound == Some(Rebound(f.influences[v], slots))
    ensures VerticesOf(f, slots, r, used + [v]) && r.indices == m.indices && |r.positions| == |m.positions| + 1
  {
    var r := Submesh(
      m.positions + [f.positions[v]],
      if f.missingNormals then m.normals else m.normals + [f.normals[v]],
      if f.missingTexcoords then m.texcoords else m.texcoords + [f.texcoords[v]],
      m.indices, if f.influences == [] then m.influences else m.influences + [bound.value]);
    assert forall k: nat :: k < |used| ==> SameVertex(f, slots, m, k, used[k]) && (used + [v])[k] == used[k];
    assert SameVertex(f, slots, r, |used|, v);
    r
  }

  /** What an index names is what it named: the vertex, with everything it carries. */
  lemma IndexNamesTheSameVertex(f: Face, slots: seq<nat>, m: Submesh, indices: seq<nat>, k: nat)
    requires VerticesOf(f, slots, m, FirstUses(indices)) && IndicesOf(m, indices, FirstUses(indices)) && k < |indices|
    ensures SameVertex(f, slots, m, m.indices[k], indices[k])
    ensures Distinct(FirstUses(indices)) && forall v :: v in FirstUses(indices) <==> v in indices
  {
    hide FirstUses, SameVertex;
    FirstUsesLaws(indices);
  }

  // ----- the joint table -----

  const MAX_JOINTS: nat := 255
  const UNUSED: nat := 0xFFFF_FFFF

  function VertexJoints(vertex: seq<SourceInfluence>): (r: seq<nat>)
    ensures |r| == |vertex| && forall i :: 0 <= i < |r| ==> r[i] == vertex[i].joint
  {
    seq(|vertex|, i requires 0 <= i < |vertex| => vertex[i].joint)
  }

  function FaceJoints(vertices: seq<seq<SourceInfluence>>): seq<nat>
    decreases |vertices|
  {
    if vertices == [] then [] else FaceJoints(vertices[..|vertices| - 1]) + VertexJoints(vertices[|vertices| - 1])
  }

  /** Every joint any vertex binds, face by face, vertex by vertex. */
  function MeshJoints(faces: seq<Face>): seq<nat>
    decreases |faces|
  {
    if faces == [] then [] else MeshJoints(faces[..|faces| - 1]) + FaceJoints(faces[|faces| - 1].influences)
  }

  /** The compacted table to begin with: the source's bind shape and nothing else of it. */
  function NoJoints(skin: Skin): Skin {
    Skin([], [], skin.bindShape, [], 0.0, false)
  }

  function WithJoint(table: Skin, skin: Skin, joint: nat): Skin
    requires joint < |skin.joints| && joint < |skin.inverseBind|
  {
    table.(joints := table.joints + [skin.joints[joint]], inverseBind := table.inverseBind + [skin.inverseBind[joint]])
  }

  /** Slot `k` of the table holds the skin's joint `j`. */
  predicate IsSlot(skin: Skin, table: Skin, slots: seq<nat>, k: nat, j: nat) {
    && k < |table.joints| && k < |table.inverseBind| && j < |skin.joints| && j < |skin.inverseBind| && j < |slots|
    && slots[j] == k && table.joints[k] == skin.joints[j] && table.inverseBind[k] == skin.inverseBind[j]
  }

  /** The compacted table has the used joints in first-use order, and each used joint's slot. */
  predicate TableOf(skin: Skin, table: Skin, slots: seq<nat>, used: seq<nat>) {
    && |table.joints| == |table.inverseBind| == |used| <= MAX_JOINTS 
    && table == NoJoints(skin).(joints := table.joints, inverseBind := table.inverseBind)
    && |slots| == |skin.joints| && |skin.inverseBind| == |skin.joints|
    && (forall k: nat :: k < |used| ==> IsSlot(skin, table, slots, k, used[k]))
    && forall j :: 0 <= j < |slots| && j !in used ==> slots[j] == UNUSED
  }

  /** The joints a mesh binds can be carried: they are the skin's, and they fit the one-byte index. */
  predicate Bindable(skin: Skin, joints: seq<nat>) {
    (forall j :: j in joints ==> j < |skin.joints|) && |FirstUses(joints)| <= MAX_JOINTS
  }

  datatype Compacted = Compacted(table: Skin, slots: seq<nat>)

  method UseJoint(skin: Skin, c: Compacted, joint: nat, ghost joints: seq<nat>) returns (r: Option<Compacted>)
    requires TableOf(skin, c.table, c.slots, FirstUses(joints)) && Bindable(skin, joints)
    ensures r.Some? <==> Bindable(skin, joints + [joint])
    ensures r.Some? ==> TableOf(skin, r.value.table, r.value.slots, FirstUses(joints + [joint]))
  {
    hide FirstUses, TableOf, IsSlot;
    FirstUsesOneMore(joints, joint);
    FirstUsesLaws(joints);
    assert joint in joints + [joint];
    SlotsTell(skin, c, joint, FirstUses(joints));
    if joint >= |c.slots| {
      return None;
    }
    if c.slots[joint] != UNUSED {
      return Some(c);
    }
    if |c.table.joints| >= MAX_JOINTS {
      return None;
    }
    AddedSlot(skin, c, joint, FirstUses(joints));
    return Some(Compacted(
      WithJoint(c.table, skin, joint),
      c.slots[joint := |c.table.joints|]));
  }

  /** A joint's slot says whether the joint was used before. */
  lemma SlotsTell(skin: Skin, c: Compacted, joint: nat, used: seq<nat>)
    requires TableOf(skin, c.table, c.slots, used)
    ensures |c.slots| == |skin.joints| == |skin.inverseBind| && |c.table.joints| == |used|
    ensures joint < |c.slots| ==> (joint in used <==> c.slots[joint] != UNUSED)
  {
    if joint in used {
      var k :| 0 <= k < |used| && used[k] == joint;
      assert IsSlot(skin, c.table, c.slots, k, used[k]);
    }
  }

  lemma AddedSlot(skin: Skin, c: Compacted, joint: nat, used: seq<nat>)
    requires TableOf(skin, c.table, c.slots, used) && joint < |c.slots| && joint !in used && |used| < MAX_JOINTS
    requires joint < |skin.joints| && joint < |skin.inverseBind|
    ensures TableOf(
      skin, WithJoint(c.table, skin, joint),
      c.slots[joint := |c.table.joints|], used + [joint])
  {
    var table := WithJoint(c.table, skin, joint);
    var slots := c.slots[joint := |c.table.joints|];
    forall k: nat | k < |used| + 1
      ensures IsSlot(skin, table, slots, k, (used + [joint])[k])
    {
      if k < |used| {
        assert IsSlot(skin, c.table, c.slots, k, used[k]);
      }
    }
  }

  lemma {:induction false} BindablePrefix(skin: Skin, joints: seq<nat>, more: seq<nat>)
    requires Bindable(skin, joints + more)
    ensures Bindable(skin, joints)
  {
    FirstUsesLaws(joints + more);
    assert (joints + more)[..|joints|] == joints;
    assert forall j :: j in joints ==> j in joints + more;
  }

  method UseVertex(skin: Skin, start: Compacted, vertex: seq<SourceInfluence>, ghost joints: seq<nat>) returns (r: Option<Compacted>)
    requires TableOf(skin, start.table, start.slots, FirstUses(joints)) && Bindable(skin, joints)
    ensures r.Some? <==> Bindable(skin, joints + VertexJoints(vertex))
    ensures r.Some? ==> TableOf(skin, r.value.table, r.value.slots, FirstUses(joints + VertexJoints(vertex)))
  {
    hide FirstUses, TableOf, Bindable;
    var c := start;
    var i := 0;
    ghost var all := VertexJoints(vertex);
    assert joints + all[..0] == joints;
    while i < |vertex|
      invariant i <= |vertex| && Bindable(skin, joints + all[..i]) && TableOf(skin, c.table, c.slots, FirstUses(joints + all[..i]))
    {
      var next := UseJoint(skin, c, vertex[i].joint, joints + all[..i]);
      assert joints + all[..i] + [all[i]] == joints + all[..i + 1];
      if next == None {
        assert joints + all == (joints + all[..i + 1]) + all[i + 1..];
        if Bindable(skin, joints + all) {
          BindablePrefix(skin, joints + all[..i + 1], all[i + 1..]);
        }
        return None;
      }
      c := next.value;
      i := i + 1;
    }
    assert all[..i] == all;
    return Some(c);
  }

  method UseFace(skin: Skin, start: Compacted, vertices: seq<seq<SourceInfluence>>, ghost joints: seq<nat>) returns (r: Option<Compacted>)
    requires TableOf(skin, start.table, start.slots, FirstUses(joints)) && Bindable(skin, joints)
    ensures r.Some? <==> Bindable(skin, joints + FaceJoints(vertices))
    ensures r.Some? ==> TableOf(skin, r.value.table, r.value.slots, FirstUses(joints + FaceJoints(vertices)))
  {
    hide FirstUses, TableOf, Bindable;
    var c := start;
    var i := 0;
    assert joints + FaceJoints(vertices[..0]) == joints;
    while i < |vertices|
      invariant i <= |vertices| && Bindable(skin, joints + FaceJoints(vertices[..i]))
      invariant TableOf(skin, c.table, c.slots, FirstUses(joints + FaceJoints(vertices[..i])))
    {
      var next := UseVertex(skin, c, vertices[i], joints + FaceJoints(vertices[..i]));
      assert vertices[..i + 1][..i] == vertices[..i];
      assert joints + FaceJoints(vertices[..i]) + VertexJoints(vertices[i]) == joints + FaceJoints(vertices[..i + 1]);
      if next == None {
        var rest := FaceJointsFrom(vertices, i + 1);
        assert joints + FaceJoints(vertices) == (joints + FaceJoints(vertices[..i + 1])) + rest;
        if Bindable(skin, joints + FaceJoints(vertices)) {
          BindablePrefix(skin, joints + FaceJoints(vertices[..i + 1]), rest);
        }
        return None;
      }
      c := next.value;
      i := i + 1;
    }
    assert vertices[..i] == vertices;
    return Some(c);
  }

  lemma {:induction false} FaceJointsFrom(vertices: seq<seq<SourceInfluence>>, n: nat) returns (rest: seq<nat>)
    requires n <= |vertices|
    ensures FaceJoints(vertices) == FaceJoints(vertices[..n]) + rest
    decreases |vertices|
  {
    if n == |vertices| {
      assert vertices[..n] == vertices;
      rest := [];
    } else {
      var front := vertices[..|vertices| - 1];
      assert front[..n] == vertices[..n];
      var more := FaceJointsFrom(front, n);
      rest := more + VertexJoints(vertices[|vertices| - 1]);
    }
  }

  lemma {:induction false} MeshJointsFrom(faces: seq<Face>, n: nat) returns (rest: seq<nat>)
    requires n <= |faces|
    ensures MeshJoints(faces) == MeshJoints(faces[..n]) + rest
    decreases |faces|
  {
    if n == |faces| {
      assert faces[..n] == faces;
      rest := [];
    } else {
      var front := faces[..|faces| - 1];
      assert front[..n] == faces[..n];
      var more := MeshJointsFrom(front, n);
      rest := more + FaceJoints(faces[|faces| - 1].influences);
    }
  }

  /** The joint table cut down to what the mesh moves, exactly when it binds some joint and what it
      binds can be carried. */
  method CompactJoints(skin: Skin, faces: seq<Face>) returns (r: Option<Compacted>)
    requires |skin.inverseBind| == |skin.joints|
    ensures r.Some? <==> Bindable(skin, MeshJoints(faces)) && MeshJoints(faces) != []
    ensures r.Some? ==> TableOf(skin, r.value.table, r.value.slots, FirstUses(MeshJoints(faces)))
  {
    hide FirstUses, TableOf, Bindable;
    var c := Compacted(NoJoints(skin), seq(|skin.joints|, _ => UNUSED));
    NoJointsYet(skin, c);
    var i := 0;
    assert faces[..0] == [];
    while i < |faces|
      invariant i <= |faces| && Bindable(skin, MeshJoints(faces[..i]))
      invariant TableOf(skin, c.table, c.slots, FirstUses(MeshJoints(faces[..i])))
    {
      var next := UseFace(skin, c, faces[i].influences, MeshJoints(faces[..i]));
      assert faces[..i + 1][..i] == faces[..i];
      if next == None {
        var rest := MeshJointsFrom(faces, i + 1);
        if Bindable(skin, MeshJoints(faces)) {
          BindablePrefix(skin, MeshJoints(faces[..i + 1]), rest);
        }
        return None;
      }
      c := next.value;
      i := i + 1;
    }
    assert faces[..i] == faces;
    SomeJoints(skin, c, MeshJoints(faces));
    if c.table.joints == [] {
      return None;
    }
    return Some(c);
  }

  lemma NoJointsYet(skin: Skin, c: Compacted)
    requires |skin.inverseBind| == |skin.joints|
    requires c.table == NoJoints(skin) && |c.slots| == |skin.joints| && forall j :: 0 <= j < |c.slots| ==> c.slots[j] == UNUSED
    ensures Bindable(skin, []) && TableOf(skin, c.table, c.slots, FirstUses([]))
  {
  }

  lemma SomeJoints(skin: Skin, c: Compacted, joints: seq<nat>)
    requires TableOf(skin, c.table, c.slots, FirstUses(joints))
    ensures c.table.joints == [] <==> joints == []
  {
    FirstUsesLaws(joints);
    if joints != [] {
      assert joints[0] in FirstUses(joints);
    }
  }

  /** An influence of the mesh, renumbered into the compacted table, still names its joint: the same
      name, the same matrix, and an index of one byte that is not the end-of-list marker. */
  lemma InfluenceKeepsItsJoint(skin: Skin, c: Compacted, faces: seq<Face>, b: SourceInfluence)
    requires TableOf(skin, c.table, c.slots, FirstUses(MeshJoints(faces))) && b.joint in MeshJoints(faces)
    ensures b.joint < |skin.joints| && b.joint < |c.slots|
    ensures var j := Rebound([b], c.slots)[0].joint;
      && j < 255 && j < |c.table.joints| && c.table.joints[j] == skin.joints[b.joint] && c.table.inverseBind[j] == skin.inverseBind[b.joint]
  {
    hide FirstUses;
    FirstUsesLaws(MeshJoints(faces));
    var used := FirstUses(MeshJoints(faces));
    var k :| 0 <= k < |used| && used[k] == b.joint;
    assert IsSlot(skin, c.table, c.slots, k, used[k]);
    assert [b][0] == b;
  }

  // ----- what the asset's writer makes of it -----

  /** What is emitted for a list of indices is what the asset's writer takes exactly when the
      indices are whole triangles and some. */
  lemma ConvertedIsValid(f: Face, indices: seq<nat>, slots: seq<nat>, m: Submesh)
    requires VerticesOf(f, slots, m, FirstUses(indices)) && IndicesOf(m, indices, FirstUses(indices))
    requires |m.positions| <= MAX_VERTICES
    ensures ValidSubmesh(m) <==> indices != [] && |indices| % 3 == 0
  {
    hide FirstUses;
    AllSmall(m, indices, FirstUses(indices));
    if indices != [] {
      assert m.indices[0] < |FirstUses(indices)|;
    }
  }

  /** The level of some faces, one submesh a face, from lists of whole triangles is written. */
  lemma ConvertedLevelIsValid(faces: seq<Face>, lists: seq<seq<nat>>, slots: seq<nat>, level: Level)
    requires |faces| == |lists| == |level|
    requires forall i :: 0 <= i < |level| ==> |level[i].positions| <= MAX_VERTICES
    requires forall i :: 0 <= i < |level| ==> VerticesOf(faces[i], slots, level[i], FirstUses(lists[i]))
    requires forall i :: 0 <= i < |level| ==> IndicesOf(level[i], lists[i], FirstUses(lists[i]))
    ensures ValidLevel(level) <==> faces != [] && forall list :: list in lists ==> list != [] && |list| % 3 == 0
  {
    hide FirstUses, VerticesOf, IndicesOf, ValidSubmesh;
    forall i | 0 <= i < |level|
      ensures ValidSubmesh(level[i]) <==> lists[i] != [] && |lists[i]| % 3 == 0
    {
      ConvertedIsValid(faces[i], lists[i], slots, level[i]);
    }
    assert forall i :: 0 <= i < |level| ==> level[i] in level && lists[i] in lists;
  }

  /** The compacted table of a mesh that binds some joint is a skin the writer takes. */
  lemma CompactedSkinIsValid(skin: Skin, c: Compacted, joints: seq<nat>)
    requires TableOf(skin, c.table, c.slots, FirstUses(joints)) && joints != []
    ensures ValidSkin(c.table) && c.table.bindShape == skin.bindShape
    ensures c.table.alternateInverseBind == [] && c.table.pelvisOffset == 0.0 && !c.table.lockScale
  {
    hide FirstUses;
    SomeJoints(skin, c, joints);
  }

  /** How many bindings of a list are written after some. */
  function Room(list: nat, written: nat): nat
    requires written <= 4
  {
    if list < 4 - written then list else 4 - written
  }

  /** One binding: its index and its weight. */
  function Spelling(b: Influence): (r: Bytes)
    ensures |r| == 3 && r[0] as int == b.joint
  {
    [b.joint as char] + Short(Scaled16(b.weight))
  }

  lemma SliceAfter(head: Bytes, rest: Bytes, i: nat)
    requires |head| == 3 && 0 < i && 3 * i <= |rest|
    ensures (head + rest)[3 * i..3 * i + 3] == rest[3 * (i - 1)..3 * i]
  {
  }

  lemma BindingsStep(list: seq<Influence>, written: nat)
    requires written < 4 && list != [] && list[0].joint < MARKER
    ensures Bindings(list, written) == Spelling(list[0]) + Bindings(list[1..], written + 1)
  {
    hide Scaled16;
  }

  /** Bindings whose joints have an index are written three bytes each, the first four of them, and
      the marker ends fewer. */
  lemma {:induction false} BindingsSpelled(list: seq<Influence>, written: nat, i: nat)
    requires written <= 4 && forall b :: b in list ==> b.joint < MARKER
    ensures var n, bytes := Room(|list|, written), Bindings(list, written);
      && |bytes| == 3 * n + (if written + n < 4 then 1 else 0)
      && (written + n < 4 ==> bytes[3 * n] as int == MARKER)
      && (i < n ==> bytes[3 * i..3 * i + 3] == Spelling(list[i]))
    decreases |list|
  {
    hide Scaled16, Spelling;
    if list != [] && written < 4 {
      assert list[0] in list && forall b :: b in list[1..] ==> b in list;
      BindingsSpelled(list[1..], written + 1, if i == 0 then 0 else i - 1);
      BindingsStep(list, written);
      hide Bindings;
      if 0 < i < Room(|list|, written) {
        SliceAfter(Spelling(list[0]), Bindings(list[1..], written + 1), i);
      }
    }
  }

  /** A vertex's bindings, renumbered and written: each of the first four is one byte that names, in
      the compacted table, the joint it named in the source's, and its weight; none is passed over. */
  lemma WrittenBindingsKeepTheirJoints(skin: Skin, c: Compacted, faces: seq<Face>, bound: seq<SourceInfluence>, i: nat)
    requires TableOf(skin, c.table, c.slots, FirstUses(MeshJoints(faces)))
    requires forall b :: b in bound ==> b.joint in MeshJoints(faces)
    ensures JointsKnown(bound, c.slots)
    ensures var n, bytes := Room(|bound|, 0), Bindings(Rebound(bound, c.slots), 0);
      && |bytes| == 3 * n + (if n < 4 then 1 else 0) && (n < 4 ==> bytes[3 * n] as int == MARKER)
      && (i < n ==>
            && bound[i].joint < |skin.joints| && bytes[3 * i] as int < |c.table.joints|
            && c.table.joints[bytes[3 * i] as int] == skin.joints[bound[i].joint]
            && c.table.inverseBind[bytes[3 * i] as int] == skin.inverseBind[bound[i].joint]
            && bytes[3 * i..3 * i + 3] == [bytes[3 * i]] + Short(Scaled16(bound[i].weight)))
  {
    hide FirstUses, TableOf, Bindings, Scaled16;
    forall k | 0 <= k < |bound|
      ensures bound[k].joint < |c.slots| && c.slots[bound[k].joint] % 256 < 255
    {
      assert bound[k] in bound;
      InfluenceKeepsItsJoint(skin, c, faces, bound[k]);
      assert [bound[k]][0] == bound[k];
    }
    assert JointsKnown(bound, c.slots);
    BindingsSpelled(Rebound(bound, c.slots), 0, i);
    if i < |bound| {
      assert bound[i] in bound;
      InfluenceKeepsItsJoint(skin, c, faces, bound[i]);
      assert Rebound([bound[i]], c.slots)[0] == Rebound(bound, c.slots)[i];
      if i < 4 {
        assert Bindings(Rebound(bound, c.slots), 0)[3 * i..3 * i + 3][0] == Bindings(Rebound(bound, c.slots), 0)[3 * i];
      }
    }
  }

  // ----- the limit -----

  /** A mesh of `n` vertices, each bound to a joint of its own. */
  function Spread(n: nat): seq<seq<SourceInfluence>> {
    seq(n, i requires 0 <= i < n => [SourceInfluence(i, 1.0)])
  }

  function Counting(n: nat): (r: seq<nat>)
    ensures |r| == n && forall i :: 0 <= i < n ==> r[i] == i
  {
    seq(n, i requires 0 <= i < n => i)
  }

  lemma {:induction false} SpreadBinds(n: nat)
    ensures FaceJoints(Spread(n)) == Counting(n)
    decreases n
  {
    if n > 0 {
      SpreadBinds(n - 1);
      assert Spread(n)[..n - 1] == Spread(n - 1) && VertexJoints(Spread(n)[n - 1]) == [n - 1];
      assert Counting(n) == Counting(n - 1) + [n - 1];
    }
  }

  lemma {:induction false} CountingIsDistinct(n: nat)
    ensures FirstUses(Counting(n)) == Counting(n)
    decreases n
  {
    if n > 0 {
      CountingIsDistinct(n - 1);
      assert Counting(n) == Counting(n - 1) + [n - 1];
      FirstUsesOneMore(Counting(n - 1), n - 1);
    }
  }

  /** Two hundred and fifty-five joints are carried and one more is not. */
  lemma JointLimit(skin: Skin, f: Face, n: nat)
    requires f.influences == Spread(n) && |skin.joints| == |skin.inverseBind| == n
    ensures Bindable(skin, MeshJoints([f])) <==> n <= 255
  {
    hide FirstUses, FaceJoints, Spread;
    SpreadBinds(n);
    CountingIsDistinct(n);
    assert MeshJoints([f]) == Counting(n) by {
      assert [f][..0] == [] && MeshJoints([]) == [];
    }
  }
}
