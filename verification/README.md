# gfxRenderEngine core, modelled in Dafny

This project models three sequential pieces of the engine and its sample application.

- **The mesh and material builder** (`Builder`):
  - OBJ import, including the Y flip and vertex de-duplication through `Vertex::operator==` and `std::hash<Vertex>`.
  - glTF vertex and index extraction, with 8-, 16- and 32-bit indices.
  - The per-triangle tangent pass.
  - glTF material conversion into a 3-bit feature mask, and the dispatch from that mask to one of five PBR material components.
  - glTF node transforms, and the recursive walk that turns the node graph into entities and a parent/child tree.
  - The two fixed quads, for sprites and for particles.
- **The particle pool** (`ParticleSystem`): a fixed-size ring buffer of particles with a write cursor.
  - `Emit` overwrites the slot under the cursor and creates a registry entity.
  - `OnUpdate` advances every live particle and its entity's transform.
- **The game-state machine** (`GameState`): SPLASH, MAIN and SETTINGS. A finished scene hands over through `SetState`, which always stops the current scene and then starts the new one.

Modelling conventions:
- Floating-point values are reals. `glm::normalize` is a function parameter.
- The buffers, the particle pool and the game state are immutable records.
- The entt registry becomes a sequence of entities in creation order. An entity is its position in that sequence.
- The scene-hierarchy tree becomes a parent position per entity.
- Calls into code outside the model are either parameters or recorded outputs:
  - The OBJ and glTF parsers are replaced by their outputs: attribute arrays, node, mesh and material records, and an image count.
  - `RandomPlusMinusOne` is the `jitter` parameter.
  - Scene `Start` and `Stop`, and the engine shutdown, are recorded as a call trace.
  - `IsFinished` is an input of each update.

Modules, one per file:

| file | module | models |
|---|---|---|
| math.dfy | Math | Option, glm vectors, quaternion, lerp |
| vertex.dfy | Vertices | `Vertex`, `operator==`, `std::hash<Vertex>` |
| tangents.dfy | Tangents | `Builder::CalculateTangents` |
| obj_import.dfy | ObjImport | `Builder::LoadModel` |
| materials.dfy | Materials | `Builder::LoadMaterialsGLTF`, `Builder::AssignMaterial` |
| gltf_mesh.dfy | GltfMesh | `Builder::LoadVertexDataGLTF` |
| scene_graph.dfy | SceneGraph | `Builder::LoadTransformationMatrix`, `LoadGLTF`, `ProcessNode`, `CreateGameObject` |
| quads.dfy | Quads | `Builder::LoadSprite`, `Builder::LoadParticle` |
| particles.dfy | Particles | `ParticleSystem` |
| game_state.dfy | GameStates | `LucreApp::GameState` |

A glTF mesh node yields one entity, whatever the number of its mesh's primitives. Its material comes from the first primitive; `SceneGraph.MeshLeafOneEntity` states this.

The code also behaves in the following ways, and the model keeps each behaviour as written:
- `LoadVertexDataGLTF` records each primitive's first vertex and first index as the buffer sizes after that primitive was appended.
- It appends a primitive's indices unchanged, without adding the primitive's vertex offset. The tangent pass over a mesh with several primitives therefore reads the vertices those raw indices name.
- `LoadSprite` ignores its colour argument.
- `OnUpdate` computes the particle colour and then discards it.

## Model

| member | source | states |
|---|---|---|
| Vertices.KeyCharacterisesEqual | engine/renderer/model.cpp:58-67 | Two vertices are equal under `operator==` exactly when they agree on every field except the tangent, in both directions. This justifies keying the de-duplication map by the tangent-free vertex. |
| Vertices.SameKeySameFields | engine/renderer/model.cpp:58-67 | Vertices that compare equal agree on position, colour, normal, UV, texture slot, amplification and unlit flag. |
| Vertices.EqualVerticesHashEqually | engine/renderer/model.cpp:43-54 | Vertices that are equal under `operator==` get the same hash, whatever the seed-combining function. |
| Vertices.HashIgnoresNonGeometricFields | engine/renderer/model.cpp:43-54 | The hash reads only position, colour, normal and UV. Changing the texture slot, amplification, unlit flag or tangent leaves the hash unchanged. |
| Tangents.TriangleTangent | engine/renderer/model.cpp:650-672 | A triangle whose UV edges have zero determinant gets the zero tangent, where the source divides by zero. |
| Tangents.TangentFrame | engine/renderer/model.cpp:650-672 | For a non-degenerate UV mapping the tangent is the one the mapping defines. Together with its bitangent it rebuilds both position edges from the UV edges: p2 - p1 = dU1 T + dV1 B and p3 - p1 = dU2 T + dV2 B, in every coordinate. |
| Tangents.ComponentFrame | engine/renderer/model.cpp:650-672 | The same identity for one coordinate of the tangent and bitangent. |
| Tangents.TangentPass | engine/renderer/model.cpp:616-682 | The tangent pass keeps the vertex count and changes no field other than the tangent. |
| Tangents.LastWriterWins | engine/renderer/model.cpp:629-681 | After the first n triangles, a vertex's tangent is that of the last complete triangle containing it, or its old tangent if no triangle contains it. |
| Tangents.CornersShareTangent | engine/renderer/model.cpp:674-676 | The three corners of a triangle that no later triangle touches end with the same tangent: that triangle's own. |
| Tangents.ApplyReadsPrefix | engine/renderer/model.cpp:629-681 | The first n triangles depend only on the first 3n indices. |
| Tangents.TrailingIndicesWriteNothing | engine/renderer/model.cpp:629-681 | A trailing one or two indices that do not complete a triangle write nothing. |
| Tangents.TangentPassIdempotent | engine/renderer/model.cpp:616-682 | Running the tangent pass twice gives the same buffer as running it once. |
| Tangents.CompleteTriangle | engine/renderer/model.cpp:645-676 | The third corner completes the triangle: the remembered corners plus the current vertex produce exactly the tangent the reference pass writes for that triangle. |
| Tangents.VisitCorner | engine/renderer/model.cpp:629-681 | One iteration of the corner loop moves the corner counter by one (mod 3) and keeps the buffer equal to the reference pass over the completed triangles. |
| Tangents.CalculateTangents | engine/renderer/model.cpp:616-682 | The loop over the index buffer, with a corner counter mod 3, gives the same buffer as the per-triangle reference pass. |
| ObjImport.FlipY | engine/renderer/model.cpp:566-590 | The Y component is negated and X and Z are copied unchanged. |
| ObjImport.FlipYInvolution | engine/renderer/model.cpp:566-590 | Flipping twice gives back the original vector. |
| ObjImport.CornerVertex | engine/renderer/model.cpp:560-600 | A face corner's vertex has a Y-flipped position and normal, a colour taken by vertex index, and a UV. Each field whose index is negative keeps its default. Slot and amplification come from the arguments, and the tangent is zero. |
| ObjImport.AllCornersLength | engine/renderer/model.cpp:558-560 | The corner stream has one entry per face-index entry across all shapes. |
| ObjImport.AllCornersValid | engine/renderer/model.cpp:558-600 | Every corner of the stream can be read from the attribute arrays when the shapes' indices can. |
| ObjImport.SharedIndexIffEqual | engine/renderer/model.cpp:602-607 | Two corners get the same index exactly when their vertices are equal, in both directions. |
| ObjImport.Deduplicate | engine/renderer/model.cpp:556-607 | There is one index per input vertex, and each index names a stored vertex equal to its input. No two stored vertices are equal, and every stored vertex is used. There are at most as many vertices as inputs. Vertices are stored in order of first use: an index met for the first time is larger than every index before it. |
| ObjImport.FirstUseAppend | engine/renderer/model.cpp:602-607 | Appending an index already used, or one larger than every earlier index, keeps first uses in order. |
| ObjImport.LoadModel | engine/renderer/model.cpp:541-614 | The index count equals the total face-index count, and the vertex count is at most the index count. The buffers de-duplicate the corner vertices. Tangents are a fixed point of the tangent pass, and a vertex that no complete triangle contains keeps a zero tangent. Vertices are numbered in order of first use: an index met for the first time is larger than every index before it. |
| Materials.ConvertMaterial | engine/renderer/model.cpp:117-152 | The diffuse bit is set iff the base-colour texture index is not -1 or the legacy `baseColorTexture` value exists. The normal and roughness-metallic bits are set iff their texture index is not -1, and no other bit is ever set. The colour defaults to (0.5, 0.5, 1), and a map index with no texture stays 0. |
| Materials.LoadMaterials | engine/renderer/model.cpp:114-153 | Exactly one material per glTF material, in order. |
| Materials.DiffuseFallbackUnreachable | engine/renderer/model.cpp:376-405 | No feature mask reaches the branch at line 396. |
| Materials.DispatchTable | engine/renderer/model.cpp:315-414 | The branch chosen for each of the eight 3-bit masks. N, R and N\|R reach the catch-all. |
| Materials.AssignMaterial | engine/renderer/model.cpp:300-415 | Index -1 gives the fixed untextured component (roughness 0.5, metallic 0.1, colour (0.5, 0.5, 1)). Otherwise the mask's branch picks the variant. The component is made from exactly the diffuse, normal and roughness-metallic images its branch looks up, each at the file's image offset plus the material's map index and inside the image table. It copies roughness and metallic factor into the diffuse and diffuse-normal variants, and the normal-map intensity into the variants with a normal map. The untextured case copies the material's roughness, metallic factor and colour. |
| Materials.VariantFromTextures | engine/renderer/model.cpp:300-415 | From the glTF textures present to the variant emplaced. The diffuse texture together with the other maps names its variant exactly. With no diffuse texture, any other texture gives the three-map variant. No texture gives the material's untextured component. |
| GltfMesh.ComponentWidth | engine/renderer/model.cpp:227-251 | Only the three unsigned index types are supported, at 1, 2 and 4 bytes. |
| GltfMesh.DecodeIndices | engine/renderer/model.cpp:227-251 | A supported type yields exactly `count` indices, each below 2^8, 2^16 or 2^32 for its width. An unsupported type yields none. |
| GltfMesh.DecodeEncodeLE | engine/renderer/model.cpp:228-247 | Reading back the little-endian bytes of a value gives the value. |
| GltfMesh.EncodeDecodeLE | engine/renderer/model.cpp:228-247 | Writing a value read from bytes gives the bytes back. |
| GltfMesh.DecodeAllEncodeAll | engine/renderer/model.cpp:228-247 | Decoding an index buffer written at width w gives back the indices. |
| GltfMesh.IndexRoundTrip | engine/renderer/model.cpp:227-251 | For every supported component type, each index is appended unchanged as a 32-bit value. |
| GltfMesh.PrimitiveColor | engine/renderer/model.cpp:169-174 | A primitive's colour is (0.5, 0.5, 1) without a material, and otherwise its material's diffuse colour. |
| GltfMesh.PrimitiveVertex | engine/renderer/model.cpp:205-215 | A glTF vertex has the POSITION value, the normalised NORMAL (or normalised zero), TEXCOORD_0 or zero, the primitive colour and amplification 1. All other fields are default. |
| GltfMesh.PrimitiveVertices | engine/renderer/model.cpp:182-215 | A primitive appends exactly as many vertices as its POSITION accessor holds, and none without one. |
| GltfMesh.FirstUnsupported | engine/renderer/model.cpp:249-251 | The position of the first primitive with an unsupported index type. Every earlier primitive is supported. |
| GltfMesh.IndicesOfInRange | engine/renderer/model.cpp:265 | When every primitive is supported and its indices name its own vertices, every index names a vertex of the whole buffer, so the tangent pass is well defined. |
| GltfMesh.AppendPrimitive | engine/renderer/model.cpp:164-261 | Appending a primitive extends both buffers by its own vertices and indices. Its record holds the sizes after appending. |
| GltfMesh.AppendStep | engine/renderer/model.cpp:164-261 | One primitive: its vertices are appended, then either its indices and record, or nothing more if its index type is unsupported. |
| GltfMesh.LoadVertexData | engine/renderer/model.cpp:157-266 | Records exist exactly for the primitives before the first unsupported one. Each record holds its vertex and index counts and the buffer sizes after appending. At an unsupported type the load stops: that primitive's vertices are in, its indices and record are not, and no tangent pass runs. Otherwise the result is the tangent pass over all vertices and indices. |
| GltfMesh.RangesTile | engine/renderer/model.cpp:255-259 | Consecutive records differ by exactly the later primitive's vertex and index counts. |
| SceneGraph.ReadTrs | engine/renderer/model.cpp:277-297 | Without a matrix, each of rotation, scale and translation is set iff the node supplies it with 4, 3 and 3 components. The quaternion (x, y, z, w) is stored as (w, x, y, z). |
| SceneGraph.LoadTransformationMatrixAsWritten | engine/renderer/model.cpp:268-298 | With a 16-element matrix, the scale is the diagonal, the translation comes from elements 3, 7 and 11, and the rotation is untouched. Otherwise the rotation, scale and translation fields are read as ReadTrs states. |
| SceneGraph.AsWrittenDropsTranslation | engine/renderer/model.cpp:275 | The reading as written stores a zero translation for every glTF scale-translation matrix. |
| SceneGraph.AsWrittenCounterexample | engine/renderer/model.cpp:275 | A translation by (1, 2, 3) is stored as (0, 0, 0) as written, and as (1, 2, 3) when corrected. |
| SceneGraph.LoadTransformationMatrix | engine/renderer/model.cpp:268-298 | The corrected reading: with a 16-element matrix the scale is the diagonal, the translation comes from elements 12, 13 and 14, and the rotation is untouched. Otherwise the TRS fields are read as ReadTrs states. |
| SceneGraph.MatrixRoundTrip | engine/renderer/model.cpp:272-276 | The corrected reading recovers the scale and the translation of any column-major scale-translation matrix. |
| SceneGraph.StartLoad | engine/renderer/model.cpp:428-429 | The file's images are appended after the existing table entries, and the materials are converted. |
| SceneGraph.CreateGameObject | engine/renderer/model.cpp:508-539 | A mesh node yields one entity below the given tree node, with the node's name and the long name "file::scene::node". It gets a mesh component for the node's mesh, named after the node, and the node's transform as the builder reads it (elements 3, 7 and 11 for a matrix). Its material is the one assigned to the mesh's first primitive. |
| SceneGraph.NodeEntity | engine/renderer/model.cpp:470-481 | The entity ProcessNode creates for a node itself. It carries the node's names and the node's transform as the builder reads it, hangs below the given parent, and has a mesh component exactly when the node has a mesh. Its material is that mesh's first primitive's, and it has none without a mesh. |
| SceneGraph.ProcessNode | engine/renderer/model.cpp:464-506 | A node's subtree adds exactly the counted number of entities. A mesh node and a mesh-less node with children count one each, and a bare leaf counts none. The new entities are laid out as the tree (SubtreeAt): first the node's own entity below the given parent, then each child's subtree, in child order, each hanging below the node's entity. Every new entity has a material iff it has a mesh. The number of mesh entities grows by the number of mesh nodes walked. |
| SceneGraph.ProcessChildren | engine/renderer/model.cpp:483-503 | Children i onwards are each visited once, in order. Their subtrees are laid out one after the other, each rooted below the given entity (ChildrenAt), with ProcessNode's counts summed over the children. |
| SceneGraph.ChildrenAtStep | engine/renderer/model.cpp:483-503 | The subtree of child i, followed by the layout of the later children, is the layout of children i onwards. |
| SceneGraph.SubtreeAtExtends | engine/renderer/model.cpp:464-506 | Creating further entities leaves an already-built subtree, and its tree links, unchanged. |
| SceneGraph.MeshLeafOneEntity | engine/renderer/model.cpp:534-536 | A mesh node without children yields exactly one entity, with the material of primitive 0, whatever the number of primitives. |
| SceneGraph.ExtendsParentsBefore | engine/renderer/model.cpp:464-506 | The traversal keeps every tree parent created before its children. |
| SceneGraph.ProcessRoots | engine/renderer/model.cpp:457-460 | The scene's root nodes from i onwards are each walked once, in order. Their subtrees are laid out one after the other, each rooted below the given tree node (RootsAt). |
| SceneGraph.SceneAtExtends | engine/renderer/model.cpp:431-461 | Creating further entities leaves an already laid-out scene, its group entity and its tree links unchanged. |
| SceneGraph.LoadScene | engine/renderer/model.cpp:431-461 | A non-empty scene adds its root subtrees' entities, plus one group entity when it has several roots. With several roots the group "scene::root" comes first and every root's subtree hangs below it. With one root the subtree hangs below the hierarchy node. Parents stay before children, and every entity's material matches its mesh. The layout is the scene layout `SceneAt` from the first new position. |
| SceneGraph.LoadScenes | engine/renderer/model.cpp:431-461 | The scenes are loaded in order up to the first empty one. Each scene's layout (`SceneAt`) starts where the previous scene's entities end. The result extends the existing entities, keeps parents before children and matches every material to its mesh. |
| SceneGraph.LoadGltf | engine/renderer/model.cpp:417-462 | The whole load: the counted number of entities, every tree parent created before its children, and every material matching its mesh. The scenes are laid out one after the other from position 0, up to the first empty scene, each in its scene layout. |
| SceneGraph.EmptySceneStops | engine/renderer/model.cpp:451-455 | An empty scene ends the load: the scenes after it change nothing. |
| SceneGraph.MultiRootGroup | engine/renderer/model.cpp:434-446 | A scene with several roots first gets a group entity named "&lt;scene&gt;::root", and every other entity of the scene hangs below it. |
| Quads.QuadIndicesCoverCorners | engine/renderer/model.cpp:711-716 | The six quad indices use all four corners. |
| Quads.LoadSprite | engine/renderer/model.cpp:684-717 | A sprite quad has 4 vertices and 2 triangles sharing the 1-3 diagonal, with indices in range. Its corner positions are the matrix columns, and it has the sprite's slot, the given amplification and unlit flag, normal +z and zero tangents. The top corners are coloured (0, 0.1, 0.9) and the bottom corners (0, 0.9, 0.1). |
| Quads.SpriteUvRectangle | engine/renderer/model.cpp:696-705 | The sprite UVs span the atlas rectangle with V flipped: left corners share U = pos1X and right corners U = pos2X. Top corners have V = 1 - pos2Y and bottom corners V = 1 - pos1Y. |
| Quads.SpriteIgnoresColor | engine/renderer/model.cpp:684-717 | The colour argument has no effect on the sprite quad. |
| Quads.LoadParticle | engine/renderer/model.cpp:719-750 | A particle quad is well formed, with every corner in the given colour, normal -z, slot 0, amplification 1, unlit 0 and zero tangents. Corners 0 to 3 sit at (-1,1,0), (1,1,0), (1,-1,0) and (-1,-1,0), with UVs (0,0), (1,0), (1,1) and (0,1). |
| Quads.ParticleUvFollowsPosition | engine/renderer/model.cpp:728-740 | Particle UVs are the affine image of the positions: U = (x + 1)/2 and V = (1 - y)/2, on the z = 0 plane. |
| Quads.ParticleWinding | engine/renderer/model.cpp:728-749 | Both particle triangles wind the same way, and each covers half of the square. |
| Particles.New | engine/scene/particleSystem.cpp:29-33 | A pool of positive size, all particles disabled, the cursor at 0, an empty registry, and the pool invariant holding. |
| Particles.Emitted | engine/scene/particleSystem.cpp:37-53 | The emitted particle is enabled with remaining life = lifetime = the spec's lifetime. Colours, sizes, acceleration and rotation speed are copied from the spec. |
| Particles.EmittedEntity | engine/scene/particleSystem.cpp:57-69 | The new entity carries the particle quad in the start colour and is scaled by the start size. It sits at the spec position at depth 3, is turned about z by the spec rotation, and its mesh is named "particle". |
| Particles.Emit | engine/scene/particleSystem.cpp:35-70 | The slot under the cursor is overwritten, even if still enabled, and no other slot changes. The cursor becomes (cursor + 1) mod poolSize. Exactly one entity is added, and existing entities stay. The pool invariant is kept. |
| Particles.EmitOrphansEntity | engine/scene/particleSystem.cpp:58 | Overwriting an enabled particle leaves its entity in the registry with no particle referring to it. |
| Particles.CursorStep | engine/scene/particleSystem.cpp:55 | The cursor moves to the next slot, or to 0 after the last slot. |
| Particles.EmitTimesCursor | engine/scene/particleSystem.cpp:55 | After k ≤ poolSize emits, the cursor has moved k slots round the ring. |
| Particles.EmitCycle | engine/scene/particleSystem.cpp:55 | After poolSize emits the cursor is back where it started, so the next emit overwrites the same slot. |
| Particles.FreshPoolWrapsToZero | engine/scene/particleSystem.cpp:55 | From a fresh pool, the (poolSize + 1)-th emit writes slot 0. |
| Particles.StepParticle | engine/scene/particleSystem.cpp:76-93 | A disabled particle is unchanged, and no particle is ever enabled. An enabled particle with no remaining life is disabled and nothing else changes. A live particle loses exactly the timestep of life and changes nothing but that and its velocity. |
| Particles.SizeAndColorEndPoints | engine/scene/particleSystem.cpp:95-103 | Size and colour equal the start values when remaining = lifetime, and the final values when remaining = 0. |
| Particles.StepTransform | engine/scene/particleSystem.cpp:87-103 | A live particle's transform gets x/y scale equal to the interpolated size after the decrement. Its z translation, z scale and x/y rotation are kept. |
| Particles.UpdateSlot | engine/scene/particleSystem.cpp:74-105 | One slot is stepped, and only a live particle's own entity changes. |
| Particles.OnUpdate | engine/scene/particleSystem.cpp:72-107 | Every particle takes one step. Each live particle's own entity gets the transform update, and every other entity is untouched. The cursor, the pool size and the registry size are unchanged, and the pool invariant is kept, so the division by the lifetime is safe. |
| Particles.LateDisable | engine/scene/particleSystem.cpp:81-93 | A particle with less life than the timestep goes negative and stays enabled, and is disabled on the following update. |
| GameStates.Init | application/lucre/gameState.cpp:33-37 | A new game state is in SPLASH with user input disabled. |
| GameStates.GetScene | application/lucre/gameState.cpp:93-97 | The scene looked up is the one of the current state. |
| GameStates.SetState | application/lucre/gameState.cpp:86-91 | Stop on the current scene, then the state change, then Start on the new scene, even when the state is unchanged. |
| GameStates.Start | application/lucre/gameState.cpp:39-46 | Start goes through SetState to SPLASH: it stops the current scene, then starts the splash scene. |
| GameStates.Stop | application/lucre/gameState.cpp:48-51 | Stop stops the scene GetScene returns, and nothing else. |
| GameStates.EnableUserInput | application/lucre/gameState.cpp:107-110 | Only the input flag changes. |
| GameStates.OnUpdate | application/lucre/gameState.cpp:53-84 | A finished SPLASH or SETTINGS scene switches to MAIN through SetState. A finished MAIN scene requests shutdown and stays. An unfinished scene changes nothing. The returned scene is the one current after the update. |
| GameStates.OnUpdateTargetsOnlyMain | application/lucre/gameState.cpp:55-82 | No update enters SPLASH or SETTINGS. The state changes iff the scene is finished and the state is not MAIN. |
| GameStates.Run | application/lucre/gameState.cpp:53-84 | Over a run of updates nothing changes and no call is made until a frame reports the scene finished. From then on the game is in MAIN with the input flags as they were. |
| GameStates.RunAlternates | application/lucre/gameState.cpp:86-91 | Over any run, each Stop names the running scene and is immediately followed by a Start. The last scene started is the final state. |
| GameStates.RunNeverReachesSettings | application/lucre/gameState.cpp:55-82 | From a new game state SETTINGS is never current, and MAIN is never left. |
| GameStates.SplashUntilFinished | application/lucre/gameState.cpp:57-63 | From a new game state the splash scene stays current exactly as long as no frame reports it finished. |

## Left out

- `Builder::LoadImagesGLTF` uploads GPU textures, and its RGB-to-RGBA staging buffer is a block-local vector that is gone before it is used. Only the number of images it appends enters the model, as the image-table length.
- Parsing by tinyobj and tinygltf, file access and logging are left out. The model takes the parsed records as input. A failed glTF parse, which the source only logs, is therefore not modelled.
- `Engine::m_Engine->LoadModel` and `VK_Model::CreateDescriptorSet` are foreign calls:
  - A mesh component records the glTF mesh index instead of the GPU model.
  - A descriptor set is named by the image-table positions it was built from.
  - `CreateGameObject`'s call of `LoadVertexDataGLTF` is modelled separately by `GltfMesh.LoadVertexData`.
- `TreeNode::AddChild` and the `Dictionary` are not part of this model. The tree is a parent position per entity, and dictionary insertions are not modelled.
- `LoadGLTF`'s `transform` argument is unused by the source, so it is not modelled.
- Floating point is modelled as follows:
  - Reals replace floats.
  - `glm::normalize` is a parameter.
  - The tangent formula writes the zero vector where the source divides by a zero UV determinant.
  - The timestep is one real used both for lifetimes and for the motion terms.
- GltfMesh.PrimitiveVertex: attributes arrive as decoded position, normal and UV sequences. The source reads each accessor's bytes at the accessor's plus the buffer view's byte offset as tightly packed floats, and ignores `byteStride` and the component type. So an interleaved buffer, or a TEXCOORD_0 stored as normalised bytes, gives the source values other than the accessor's. Byte-level attribute decoding is not modelled.
- GltfMesh.LoadVertexData: every primitive has an index accessor. glTF allows a primitive without indices. For such a primitive the source reads `accessors[-1]`, which is undefined behaviour in C++, so that case is not modelled.
- 32-bit wrap-around of buffer sizes and index values is not modelled: indices are unbounded naturals. `GltfMesh.DecodeIndices` proves the width bounds instead.
- The engine headers for `Vertex`, `Particle`, `Material` and `TransformComponent` are not part of this model, so a few values are assumed:
  - A value-initialised vertex is all zero, and a value-initialised particle is disabled and zero.
  - A default transform is represented by absent components.
  - The feature bits are 1, 2 and 4.
  - The vertex position has three components.
- `SceneGraph.LoadTransformationMatrix` reads the scale from the matrix diagonal, as the source does. For a matrix that also rotates, that is not the scale, and the model does not say what it is.
- The traversal needs a node graph without cycles, which glTF requires. Termination is shown through a rank per node, and a cyclic file is not modelled.
- `GameState::Start` builds the three scenes from fixed file paths, and `Load` and `Save` are empty. Scenes are abstract, and their `Start`, `Stop` and the engine `Shutdown` appear only as recorded calls.
- `ParticleSystem::OnUpdate` looks up each particle's mesh component and does nothing with it. It also computes a colour it does not store; `Particles.SizeAndColorEndPoints` describes that colour as a derived value.
- Particle motion is modelled to this extent:
  - The translation and rotation updates are part of `Particles.StepTransform`.
  - The velocity update is part of `Particles.StepParticle`.
  - Their contracts state only the unchanged components, not the arithmetic.

## Findings

| source | as written | input that shows it | evidently intended | confidence | as-written member | corrected member |
|---|---|---|---|---|---|---|
| engine/renderer/model.cpp:275 | A 16-element node matrix has its translation read from elements 3, 7 and 11. glTF stores matrices column-major, so those elements are the bottom row, which is always 0 for an affine transform. | A node with matrix [1,0,0,0, 0,1,0,0, 0,0,1,0, 1,2,3,1], a translation by (1, 2, 3), gets translation (0, 0, 0). | The translation is read from elements 12, 13 and 14. | high, not executed | SceneGraph.LoadTransformationMatrixAsWritten | SceneGraph.LoadTransformationMatrix |

`SceneGraph.AsWrittenCounterexample` exhibits the input above. `SceneGraph.AsWrittenDropsTranslation` shows that the as-written reading loses every translation. `SceneGraph.MatrixRoundTrip` proves that the corrected reading recovers it. The traversal (`SceneGraph.CreateGameObject`, `SceneGraph.NodeEntity`) models the code as written, so it uses `SceneGraph.LoadTransformationMatrixAsWritten`. `SceneGraph.LoadTransformationMatrix` is the intended reading.
