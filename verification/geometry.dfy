/** Mesh bookkeeping: a counter that hands out unique ids, meshes that
    collect GPU buffer ids, and a repository that keeps meshes sorted by
    id and finds them by binary search.  GPU object names are inputs. */
module Geometry {
  import opened Base

  // ---------------------------------------------------------------------
  // Unique ids
  // ---------------------------------------------------------------------

  datatype UniqueIndex = UniqueIndex(next: nat)

  function NewUniqueIndex(): (u: UniqueIndex)
    ensures u.next == 0
  {
    UniqueIndex(0)
  }

  /** `get_next`: the current count, and the counter moved on by one. */
  function GetNext(u: UniqueIndex): (r: (nat, UniqueIndex))
    ensures r.0 == u.next && r.1.next == u.next + 1
  {
    (u.next, UniqueIndex(u.next + 1))
  }

  /** The ids of `n` calls in a row. */
  function Draws(u: UniqueIndex, n: nat): (r: seq<nat>)
    ensures |r| == n
    decreases n
  {
    if n == 0 then [] else var (x, u') := GetNext(u); [x] + Draws(u', n - 1)
  }

  /** Call `k` returns the start value plus `k`, so the ids of a fresh
      counter are `0, 1, 2, …` and never repeat. */
  lemma {:induction false} DrawsCount(u: UniqueIndex, n: nat)
    ensures forall k :: 0 <= k < n ==> Draws(u, n)[k] == u.next + k
    ensures StrictlyIncreasing(Draws(u, n))
    decreases n
  {
    if n > 0 {
      DrawsCount(UniqueIndex(u.next + 1), n - 1);
      var r := Draws(u, n);
      assert r == [u.next] + Draws(UniqueIndex(u.next + 1), n - 1);
      assert forall k :: 0 < k < n ==> r[k] == Draws(UniqueIndex(u.next + 1), n - 1)[k - 1];
    }
  }

  // ---------------------------------------------------------------------
  // Meshes
  // ---------------------------------------------------------------------

  /** A vertex array and the buffers bound to it.  `vertexCount` is an
      `i32`, -1 until a float buffer is added. */
  datatype Mesh = Mesh(bufferIds: seq<nat>, arrayId: nat, vertexCount: int)

  /** `Mesh::new`; `arrayId` is the vertex array the GPU hands out. */
  function NewMesh(arrayId: nat): (m: Mesh)
    ensures m.bufferIds == [] && m.arrayId == arrayId && m.vertexCount == -1
  {
    Mesh([], arrayId, -1)
  }

  /** `add_floatbuffer`: a negative attribute size panics (zero is
      accepted); otherwise the new buffer is recorded and the vertex count
      becomes the data length, cast to `i32`.  `bufferId` is the buffer the
      GPU hands out. */
  function AddFloatBuffer(m: Mesh, dataLen: nat, attributeSize: int, bufferId: nat): (r: Result<Mesh>)
    ensures r.Panic? <==> attributeSize < 0
    ensures r.Ok? ==> r.value == Mesh(m.bufferIds + [bufferId], m.arrayId, WrapI32(dataLen))
    ensures r.Ok? && dataLen <= I32Max ==> r.value.vertexCount == dataLen
  {
    if attributeSize < 0 then Panic("Attribute size needs to be > 0")
    else Ok(m.(bufferIds := m.bufferIds + [bufferId], vertexCount := WrapI32(dataLen)))
  }

  /** `add_elementarraybuffer`: records the buffer, keeps the vertex count. */
  function AddElementArrayBuffer(m: Mesh, bufferId: nat): (r: Mesh)
    ensures r.bufferIds == m.bufferIds + [bufferId]
    ensures r.arrayId == m.arrayId && r.vertexCount == m.vertexCount
  {
    m.(bufferIds := m.bufferIds + [bufferId])
  }

  // ---------------------------------------------------------------------
  // The repository
  // ---------------------------------------------------------------------

  datatype MeshToken = MeshToken(uid: nat, arrayId: nat, vertexCount: int)

  datatype MeshRepo = MeshRepo(index: UniqueIndex, meshes: seq<(Mesh, nat)>)

  function NewRepo(): (r: MeshRepo)
    ensures r.index.next == 0 && r.meshes == []
  {
    MeshRepo(NewUniqueIndex(), [])
  }

  /** Ids are increasing along the list and all below the counter: the
      order the binary search relies on. */
  predicate Sorted(r: MeshRepo) {
    && (forall i, j :: 0 <= i < j < |r.meshes| ==> r.meshes[i].1 < r.meshes[j].1)
    && (forall i :: 0 <= i < |r.meshes| ==> r.meshes[i].1 < r.index.next)
  }

  /** `add_mesh`: a fresh mesh on vertex array `arrayId`, set up by
      `init`, is appended under the next id; the token carries that id and
      the mesh's array and vertex count after set-up. */
  function AddMesh(r: MeshRepo, arrayId: nat, init: Mesh -> Mesh): (out: (MeshRepo, MeshToken))
    ensures var (r', t) := out;
      var m := init(NewMesh(arrayId));
      && t == MeshToken(r.index.next, m.arrayId, m.vertexCount)
      && r'.meshes == r.meshes + [(m, r.index.next)]
      && r'.index.next == r.index.next + 1
    ensures Sorted(r) ==> Sorted(out.0)
  {
    var (uid, index) := GetNext(r.index);
    var m := init(NewMesh(arrayId));
    (MeshRepo(index, r.meshes + [(m, uid)]), MeshToken(uid, m.arrayId, m.vertexCount))
  }

  /** `get_mesh`: binary search on the ids, each cast to `u32` as the
      source does.  While fewer than 2^32 meshes were added, the cast
      changes nothing and the search finds the mesh with that id, if any. */
  method GetMesh(r: MeshRepo, uid: U32) returns (m: Option<Mesh>)
    requires Sorted(r) && r.index.next <= U32Limit
    ensures m.Some? ==> (m.value, uid as nat) in r.meshes
    ensures m.None? ==> forall i :: 0 <= i < |r.meshes| ==> r.meshes[i].1 != uid
  {
    var lo, hi := 0, |r.meshes|;
    while lo < hi
      invariant 0 <= lo <= hi <= |r.meshes|
      invariant forall i :: 0 <= i < lo ==> r.meshes[i].1 < uid
      invariant forall i :: hi <= i < |r.meshes| ==> r.meshes[i].1 > uid
      decreases hi - lo
    {
      var mid := (lo + hi) / 2;
      var key := r.meshes[mid].1 % U32Limit;
      if key < uid {
        lo := mid + 1;
      } else if key > uid {
        hi := mid;
      } else {
        return Some(r.meshes[mid].0);
      }
    }
    return None;
  }

  /** Meshes added to a fresh repository sit at their id. */
  predicate Dense(r: MeshRepo) {
    && r.index.next == |r.meshes|
    && forall i :: 0 <= i < |r.meshes| ==> r.meshes[i].1 == i
  }

  lemma DenseSorted(r: MeshRepo)
    requires Dense(r)
    ensures Sorted(r)
  {
  }

  lemma AddMeshDense(r: MeshRepo, arrayId: nat, init: Mesh -> Mesh)
    requires Dense(r)
    ensures Dense(AddMesh(r, arrayId, init).0)
  {
  }

  /** In a repository built by `add_mesh` alone, an id names a mesh iff
      it is below the number added, and that is the mesh at its position. */
  lemma DenseLookup(r: MeshRepo, uid: nat)
    requires Dense(r)
    ensures (exists i :: 0 <= i < |r.meshes| && r.meshes[i].1 == uid) <==> uid < |r.meshes|
    ensures uid < |r.meshes| ==> r.meshes[uid].1 == uid
  {
    if uid < |r.meshes| {
      assert r.meshes[uid].1 == uid;
    }
  }
}
