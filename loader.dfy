/**
  The status logic of loadFile (src/gltf_loader.cpp:490-540). Parsing and
  buffer loading are done by cgltf and enter the model as their outcomes: the
  parsed document, or None when parsing failed, and whether the buffers loaded.
 */
module Loader {
  import opened Base
  import opened Document
  import opened Assembler

  predicate NodesFit(nodes: seq<Node>) {
    forall i :: 0 <= i < |nodes| && nodes[i].mesh.Some? ==> MeshFits(nodes[i].mesh.value)
  }

  /** Whether loading the mesh of `node` into a fresh MeshData runs to the end. */
  function LoadNode(node: Node, f32: F32Decode): Result<()>
    requires node.mesh.Some? ==> MeshFits(node.mesh.value)
  {
    if node.mesh.None? then Ok(())
    else
      var _ :- LoadPrimitives(EmptyMesh, node.mesh.value.primitives, f32);
      Ok(())
  }

  /** The node loop of lines 528-536 over `nodes`; each mesh is loaded and then
      discarded, so only a failed assert is observable. */
  function LoadNodes(nodes: seq<Node>, f32: F32Decode): Result<()>
    requires NodesFit(nodes)
  {
    if |nodes| == 0 then Ok(())
    else
      var _ :- LoadNodes(nodes[..|nodes| - 1], f32);
      LoadNode(nodes[|nodes| - 1], f32)
  }

  /** loadFile's result: 1 when parsing failed, 2 when the buffers did not
      load, 4 when the document has no meshes, otherwise 0 after every node's
      mesh is loaded; a failed assert in loadMesh aborts instead. */
  function LoadFileStatus(parsed: Option<Gltf>, buffersLoaded: bool, f32: F32Decode): Result<int>
    requires parsed.Some? && buffersLoaded ==> GltfFits(parsed.value)
  {
    if parsed.None? then Ok(1)
    else if !buffersLoaded then Ok(2)
    else if |parsed.value.meshes| == 0 then Ok(4)
    else
      var _ :- LoadNodes(parsed.value.nodes, f32);
      Ok(0)
  }

  lemma LoadNodesSnoc(nodes: seq<Node>, k: nat)
    requires NodesFit(nodes) && k < |nodes|
    ensures NodesFit(nodes[..k + 1]) && NodesFit(nodes[..k]) && nodes[..k + 1][..k] == nodes[..k]
  {
  }

  lemma {:induction false} LoadNodesFailureSticks(nodes: seq<Node>, k: nat, f32: F32Decode)
    requires NodesFit(nodes) && k <= |nodes| && LoadNodes(nodes[..k], f32).Fail?
    ensures LoadNodes(nodes, f32) == LoadNodes(nodes[..k], f32)
  {
    if k < |nodes| {
      assert nodes[..|nodes| - 1][..k] == nodes[..k];
      LoadNodesFailureSticks(nodes[..|nodes| - 1], k, f32);
    } else {
      assert nodes[..k] == nodes;
    }
  }

  /** loadFile, after cgltf has parsed the file and loaded its buffers. */
  method LoadFile(parsed: Option<Gltf>, buffersLoaded: bool, f32: F32Decode) returns (status: Result<int>)
    requires parsed.Some? && buffersLoaded ==> GltfFits(parsed.value)
    ensures status == LoadFileStatus(parsed, buffersLoaded, f32)
  {
    if parsed.None? {
      return Ok(1);
    }
    if !buffersLoaded {
      return Ok(2);
    }
    var data := parsed.value;
    if |data.meshes| == 0 {
      return Ok(4);
    }
    assert NodesFit(data.nodes);
    for nodeIndex := 0 to |data.nodes|
      invariant LoadNodes(data.nodes[..nodeIndex], f32) == Ok(())
    {
      LoadNodesSnoc(data.nodes, nodeIndex);
      var node := data.nodes[nodeIndex];
      assert LoadNodes(data.nodes[..nodeIndex + 1], f32) == LoadNode(node, f32);
      if node.mesh.Some? {
        var meshData := new MeshData();
        var r := LoadMesh(node.mesh.value, meshData, f32);
        if r.Fail? {
          LoadNodesFailureSticks(data.nodes, nodeIndex + 1, f32);
          return Fail(r.fault);
        }
      }
    }
    assert data.nodes[..|data.nodes|] == data.nodes;
    return Ok(0);
  }

  /** The node loop completes exactly when every node's mesh loads. */
  lemma {:induction false} LoadNodesCompletes(nodes: seq<Node>, f32: F32Decode)
    requires NodesFit(nodes)
    ensures LoadNodes(nodes, f32).Ok? <==>
      forall i :: 0 <= i < |nodes| && nodes[i].mesh.Some? ==>
        LoadPrimitives(EmptyMesh, nodes[i].mesh.value.primitives, f32).Ok?
  {
    if |nodes| > 0 {
      var init := nodes[..|nodes| - 1];
      assert forall i :: 0 <= i < |init| ==> init[i] == nodes[i];
      LoadNodesCompletes(init, f32);
    }
  }

  /** The status codes and when each is returned. */
  lemma StatusCodes(parsed: Option<Gltf>, buffersLoaded: bool, f32: F32Decode)
    requires parsed.Some? && buffersLoaded ==> GltfFits(parsed.value)
    ensures var r := LoadFileStatus(parsed, buffersLoaded, f32);
      && (r.Ok? ==> r.value in {0, 1, 2, 4})
      && (r == Ok(1) <==> parsed.None?)
      && (r == Ok(2) <==> parsed.Some? && !buffersLoaded)
      && (r == Ok(4) <==> parsed.Some? && buffersLoaded && |parsed.value.meshes| == 0)
      && (r == Ok(0) <==>
            && parsed.Some? && buffersLoaded && |parsed.value.meshes| != 0
            && forall i :: 0 <= i < |parsed.value.nodes| && parsed.value.nodes[i].mesh.Some? ==>
                 LoadPrimitives(EmptyMesh, parsed.value.nodes[i].mesh.value.primitives, f32).Ok?)
  {
    if parsed.Some? && buffersLoaded && |parsed.value.meshes| != 0 {
      LoadNodesCompletes(parsed.value.nodes, f32);
    }
  }

  /** A document without meshes returns 4 before any node is looked at. */
  lemma NoMeshesIgnoresNodes(g: Gltf, nodes: seq<Node>, f32: F32Decode)
    requires |g.meshes| == 0 && GltfFits(g) && GltfFits(g.(nodes := nodes))
    ensures LoadFileStatus(Some(g), true, f32) == LoadFileStatus(Some(g.(nodes := nodes)), true, f32) == Ok(4)
  {
  }
}
