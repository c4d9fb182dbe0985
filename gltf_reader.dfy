/** The validation done by the glTF 2.0 reader of sombra-engine (GLTFReader.cpp): the
    file's JSON, given here as records of optional properties, is read section by
    section into the GLTFData vectors, and the first element that is refused stops the
    whole load.

    Reading the JSON text and the buffer and image files, and the GPU objects built
    from images, textures, materials, meshes and cameras, are not part of this model:
    a buffer file is readable or not through a parameter, and each image, texture,
    material, mesh and camera is abstracted to whether it parses, of which only the
    count is kept. GLTFReader.h is not part of this model: the supported version, the
    sampler's default filters and the walk's step bound are parameters. */
module GltfReaders {
  import opened Wrappers
  import opened GltfTables

  // ---------------------------------------------------------------- outcomes

  /** The sections of a glTF file, in the order the reader parses them. */
  datatype Section =
    Buffers | BufferViews | Accessors | Samplers | Images | Textures | Materials | Meshes | Cameras | Nodes | Scenes

  /** Why one element was refused. */
  datatype Reason =
    | MissingProperties
    | UnreadableFile
    | InvalidTarget(target: int)
    | InvalidComponentType(code: int)
    | InvalidComponentSize(name: string)
    | InvalidWrap(code: int)
    | IndexOutOfRange(into: Section, index: nat)
    | ElementRefused
    | Exhausted
    /** The parse throws nlohmann::json::type_error, which nothing in the reader catches. */
    | TypeError

  /** The outcome of parsing one element. */
  datatype Parsed<T> = Ok(value: T) | Err(reason: Reason)

  /** Why a whole file was refused. */
  datatype Failure =
    | MissingAsset
    | UnsupportedVersion
    | SectionFailed(section: Section, index: nat, reason: Reason)
    /** An exception escapes parseGLTF while it parses that element: load() returns no
        Result at all. */
    | Threw(section: Section, index: nat)

  // ---------------------------------------------------------------- JSON input

  datatype JsonBuffer = JsonBuffer(byteLength: Option<nat>, uri: Option<string>)

  datatype JsonBufferView = JsonBufferView(
    buffer: Option<nat>, byteLength: Option<nat>, byteOffset: Option<nat>, byteStride: Option<nat>, target: Option<int>)

  datatype JsonAccessor = JsonAccessor(
    bufferView: Option<nat>, byteOffset: Option<nat>, componentType: Option<int>,
    normalized: Option<bool>, count: Option<nat>, accessorType: Option<string>)

  datatype JsonSampler = JsonSampler(minFilter: Option<int>, magFilter: Option<int>, wrapS: Option<int>, wrapT: Option<int>)

  datatype JsonNode = JsonNode(camera: Option<nat>, mesh: Option<nat>, children: Option<seq<nat>>, name: Option<string>)

  datatype JsonScene = JsonScene(name: Option<string>, nodes: Option<seq<nat>>)

  /** An image, texture, material, mesh or camera: only whether it parses. */
  datatype JsonElement = JsonElement(parses: bool)

  datatype JsonGltf = JsonGltf(
    asset: Option<JsonAsset>,
    buffers: Option<seq<JsonBuffer>>,
    bufferViews: Option<seq<JsonBufferView>>,
    accessors: Option<seq<JsonAccessor>>,
    samplers: Option<seq<JsonSampler>>,
    images: Option<seq<JsonElement>>,
    textures: Option<seq<JsonElement>>,
    materials: Option<seq<JsonElement>>,
    meshes: Option<seq<JsonElement>>,
    cameras: Option<seq<JsonElement>>,
    nodes: Option<seq<JsonNode>>,
    scenes: Option<seq<JsonScene>>)

  /** The elements of a section; an absent section has none. */
  function Elements<J>(section: Option<seq<J>>): seq<J> {
    section.GetOr([])
  }

  // ---------------------------------------------------------------- GLTFData

  /** A buffer; its bytes, read from the file, are left out. */
  datatype Buffer = Buffer(byteLength: nat)

  datatype Target = Undefined | ArrayBuffer | ElementArrayBuffer

  datatype BufferView = BufferView(bufferId: nat, length: nat, offset: nat, stride: nat, target: Target)

  datatype Accessor = Accessor(
    bufferViewId: nat, byteOffset: nat, count: nat, componentSize: nat, componentTypeId: TypeId, normalized: bool)

  /** The minification and magnification filters, and the S and T wraps. */
  datatype Sampler = Sampler(filters: (TextureFilter, TextureFilter), wraps: (TextureWrap, TextureWrap))

  /** The node's data; its transforms are left out. */
  datatype NodeData = NodeData(name: string)

  datatype Node = Node(cameraId: nat, meshId: nat, hasCamera: bool, hasMesh: bool, children: seq<nat>, nodeData: NodeData)

  /** Where a scene node lives: the scene (its position in `scenes`) and the position
      of the node in that scene's creation order. */
  datatype SceneNodeRef = SceneNodeRef(scene: nat, index: nat)

  /** A scene node: the glTF node whose data it holds, and the scene node it was
      inserted under (none for a root). */
  datatype SceneNode = SceneNode(nodeId: nat, parent: Option<SceneNodeRef>)

  datatype Scene = Scene(name: string, nodes: seq<SceneNode>)

  datatype GltfData = GltfData(
    buffers: seq<Buffer>,
    bufferViews: seq<BufferView>,
    accessors: seq<Accessor>,
    samplers: seq<Sampler>,
    imageCount: nat,
    textureCount: nat,
    materialCount: nat,
    meshCount: nat,
    cameraCount: nat,
    nodes: seq<Node>,
    sceneNodes: seq<Option<SceneNodeRef>>,
    scenes: seq<Scene>)

  const EmptyData := GltfData([], [], [], [], 0, 0, 0, 0, 0, [], [], [])

  /** The scene's nodes are all glTF nodes, and so are all their children. */
  predicate SceneClosed(nodes: seq<Node>, scene: Scene) {
    forall k :: 0 <= k < |scene.nodes| ==>
      && scene.nodes[k].nodeId < |nodes|
      && forall c :: c in nodes[scene.nodes[k].nodeId].children ==> c < |nodes|
  }

  /** Every index one part of the data holds names an existing element of another. */
  predicate Consistent(d: GltfData) {
    && (forall i :: 0 <= i < |d.bufferViews| ==> d.bufferViews[i].bufferId < |d.buffers|)
    && (forall i :: 0 <= i < |d.accessors| ==> d.accessors[i].bufferViewId < |d.bufferViews|)
    && (forall i :: 0 <= i < |d.nodes| ==>
          && (d.nodes[i].hasCamera ==> d.nodes[i].cameraId < d.cameraCount)
          && (d.nodes[i].hasMesh ==> d.nodes[i].meshId < d.meshCount))
    && (forall i :: 0 <= i < |d.scenes| ==> SceneClosed(d.nodes, d.scenes[i]))
  }

  // ---------------------------------------------------------------- elements

  /** parseBuffer: byteLength and uri are required, and the file must be readable. */
  function BufferOf(j: JsonBuffer, readable: (string, nat) -> bool): (r: Parsed<Buffer>)
    ensures r.Ok? <==> j.byteLength.Some? && j.uri.Some? && readable(j.uri.value, j.byteLength.value)
    ensures r.Ok? ==> r.value.byteLength == j.byteLength.value
    ensures (j.byteLength.None? || j.uri.None?) ==> r == Err(MissingProperties)
  {
    if j.byteLength.None? || j.uri.None? then Err(MissingProperties)
    else if !readable(j.uri.value, j.byteLength.value) then Err(UnreadableFile)
    else Ok(Buffer(j.byteLength.value))
  }

  /** The buffer view target of a code: ARRAY_BUFFER or ELEMENT_ARRAY_BUFFER. */
  function TargetOf(code: int): (r: Option<Target>)
    ensures r.Some? <==> code in {34962, 34963}
    ensures r.Some? ==> r.value != Undefined
  {
    if code == 34962 then Some(ArrayBuffer)
    else if code == 34963 then Some(ElementArrayBuffer)
    else None
  }

  /** parseBufferView: buffer and byteLength are required; the offset and stride
      default to 0 and the target to Undefined; a target must be one of the two codes;
      the buffer must exist. The checks fail in that order. */
  function BufferViewOf(j: JsonBufferView, bufferCount: nat): (r: Parsed<BufferView>)
    ensures r.Ok? <==>
      && j.buffer.Some? && j.byteLength.Some?
      && (j.target.None? || j.target.value in {34962, 34963})
      && j.buffer.value < bufferCount
    ensures r.Ok? ==>
      && r.value.bufferId == j.buffer.value < bufferCount
      && r.value.length == j.byteLength.value
      && r.value.offset == j.byteOffset.GetOr(0) && r.value.stride == j.byteStride.GetOr(0)
      && (r.value.target == Undefined <==> j.target.None?)
    ensures (j.buffer.None? || j.byteLength.None?) ==> r == Err(MissingProperties)
    ensures j.buffer.Some? && j.byteLength.Some? && j.target.Some? && j.target.value !in {34962, 34963}
      ==> r == Err(InvalidTarget(j.target.value))
    ensures j.buffer.Some? && j.byteLength.Some? && (j.target.None? || j.target.value in {34962, 34963}) && j.buffer.value >= bufferCount
      ==> r == Err(IndexOutOfRange(Buffers, j.buffer.value))
  {
    if j.buffer.None? || j.byteLength.None? then Err(MissingProperties)
    else if j.target.Some? && TargetOf(j.target.value).None? then Err(InvalidTarget(j.target.value))
    else if j.buffer.value >= bufferCount then Err(IndexOutOfRange(Buffers, j.buffer.value))
    else
      var target := if j.target.Some? then TargetOf(j.target.value).value else Undefined;
      Ok(BufferView(j.buffer.value, j.byteLength.value, j.byteOffset.GetOr(0), j.byteStride.GetOr(0), target))
  }

  /** parseAccessor: bufferView, componentType, count and type are required; the
      offset defaults to 0 and normalized to false; the component type and the type
      must be known, and the buffer view must exist. The checks fail in that order. An
      unknown component type or type builds its message from componentType read as a
      string (lines 374 and 379), and componentType is a number, so that read throws. */
  function AccessorOf(j: JsonAccessor, bufferViewCount: nat): (r: Parsed<Accessor>)
    ensures r.Ok? <==>
      && j.bufferView.Some? && j.componentType.Some? && j.count.Some? && j.accessorType.Some?
      && ToTypeId(j.componentType.value).Some? && ToComponentSize(j.accessorType.value).Some?
      && j.bufferView.value < bufferViewCount
    ensures r.Ok? ==>
      && r.value.bufferViewId == j.bufferView.value < bufferViewCount
      && TypeIdCode(r.value.componentTypeId) == j.componentType.value
      && Some(r.value.componentSize) == ToComponentSize(j.accessorType.value)
      && r.value.count == j.count.value
      && r.value.byteOffset == j.byteOffset.GetOr(0) && r.value.normalized == j.normalized.GetOr(false)
    ensures (j.bufferView.None? || j.componentType.None? || j.count.None? || j.accessorType.None?)
      ==> r == Err(MissingProperties)
    ensures r == Err(TypeError) <==>
      && j.bufferView.Some? && j.componentType.Some? && j.count.Some? && j.accessorType.Some?
      && (ToTypeId(j.componentType.value).None? || ToComponentSize(j.accessorType.value).None?)
    ensures r.Err? && r.reason.IndexOutOfRange? ==> r.reason == IndexOutOfRange(BufferViews, j.bufferView.value)
  {
    if j.bufferView.None? || j.componentType.None? || j.count.None? || j.accessorType.None? then Err(MissingProperties)
    else if ToTypeId(j.componentType.value).None? then Err(TypeError)
    else if ToComponentSize(j.accessorType.value).None? then Err(TypeError)
    else if j.bufferView.value >= bufferViewCount then Err(IndexOutOfRange(BufferViews, j.bufferView.value))
    else
      var typeId := ToTypeId(j.componentType.value).value;
      ToTypeIdOnlyFromCode(j.componentType.value);
      Ok(Accessor(j.bufferView.value, j.byteOffset.GetOr(0), j.count.value,
                  ToComponentSize(j.accessorType.value).value, typeId, j.normalized.GetOr(false)))
  }

  /** parseAccessor as its messages intend: an unknown component type or type refuses
      the accessor, naming the code or the type. */
  function AccessorOfIntended(j: JsonAccessor, bufferViewCount: nat): (r: Parsed<Accessor>)
    ensures r.Err? ==> r.reason != TypeError
    ensures j.bufferView.Some? && j.componentType.Some? && j.count.Some? && j.accessorType.Some? ==>
      && (ToTypeId(j.componentType.value).None? ==> r == Err(InvalidComponentType(j.componentType.value)))
      && (ToTypeId(j.componentType.value).Some? && ToComponentSize(j.accessorType.value).None? ==>
            r == Err(InvalidComponentSize(j.accessorType.value)))
  {
    if j.bufferView.None? || j.componentType.None? || j.count.None? || j.accessorType.None? then Err(MissingProperties)
    else if ToTypeId(j.componentType.value).None? then Err(InvalidComponentType(j.componentType.value))
    else if ToComponentSize(j.accessorType.value).None? then Err(InvalidComponentSize(j.accessorType.value))
    else AccessorOf(j, bufferViewCount)
  }

  /** The two parses agree except where the intended one refuses an unknown component
      type or type, and there the one as written throws: the accessor
      {"bufferView": 0, "componentType": 1, "count": 1, "type": "SCALAR"} throws
      instead of being refused with the code 1. */
  lemma AccessorThrowsWhereRefusalIntended(j: JsonAccessor, bufferViewCount: nat)
    ensures AccessorOf(j, bufferViewCount) == Err(TypeError) <==>
      AccessorOfIntended(j, bufferViewCount).Err?
      && (AccessorOfIntended(j, bufferViewCount).reason.InvalidComponentType?
          || AccessorOfIntended(j, bufferViewCount).reason.InvalidComponentSize?)
    ensures AccessorOf(j, bufferViewCount) != Err(TypeError) ==> AccessorOf(j, bufferViewCount) == AccessorOfIntended(j, bufferViewCount)
    ensures var k := JsonAccessor(Some(0), None, Some(1), None, Some(1), Some("SCALAR"));
      AccessorOf(k, 1) == Err(TypeError) && AccessorOfIntended(k, 1) == Err(InvalidComponentType(1))
  {
    var k := JsonAccessor(Some(0), None, Some(1), None, Some(1), Some("SCALAR"));
    assert ToTypeId(1).None?;
  }

  /** The filter of a code, or `current` when the code is not a filter: the sampler
      ignores what doFilter reports. */
  function FilterOr(code: int, current: TextureFilter): (f: TextureFilter)
    ensures ToTextureFilter(code).Some? ==> f == ToTextureFilter(code).value
    ensures ToTextureFilter(code).None? ==> f == current
  {
    ToTextureFilter(code).GetOr(current)
  }

  /** The S and T wrap codes of a sampler, each read from its own property and 10497
      (REPEAT) when it is absent. */
  function WrapCodes(j: JsonSampler): (int, int) {
    (j.wrapS.GetOr(10497), j.wrapT.GetOr(10497))
  }

  /** The wrap codes as GLTFReader.cpp:426-427 reads them: a present wrapT is read
      through the wrapS iterator, which is the end iterator, holding `endValue`, when
      wrapS is absent. */
  function WrapCodesAsWritten(j: JsonSampler, endValue: int): (int, int) {
    (j.wrapS.GetOr(10497), if j.wrapT.Some? then j.wrapS.GetOr(endValue) else 10497)
  }

  /** The sampler for the given wrap codes: the filters (9728 when absent) replace the
      default ones when they are valid, and each wrap must be valid. */
  function SamplerFrom(j: JsonSampler, defaultFilters: (TextureFilter, TextureFilter), wraps: (int, int)): (r: Parsed<Sampler>)
    ensures r.Ok? <==> ToTextureWrap(wraps.0).Some? && ToTextureWrap(wraps.1).Some?
    ensures ToTextureWrap(wraps.0).None? ==> r == Err(InvalidWrap(wraps.0))
    ensures ToTextureWrap(wraps.0).Some? && ToTextureWrap(wraps.1).None? ==> r == Err(InvalidWrap(wraps.1))
    ensures r.Ok? ==> TextureWrapCode(r.value.wraps.0) == wraps.0 && TextureWrapCode(r.value.wraps.1) == wraps.1
  {
    var filters := (FilterOr(j.minFilter.GetOr(9728), defaultFilters.0), FilterOr(j.magFilter.GetOr(9728), defaultFilters.1));
    match (ToTextureWrap(wraps.0), ToTextureWrap(wraps.1))
    case (None, _) => Err(InvalidWrap(wraps.0))
    case (Some(_), None) => Err(InvalidWrap(wraps.1))
    case (Some(s), Some(t)) =>
      ToTextureWrapOnlyFromCode(wraps.0);
      ToTextureWrapOnlyFromCode(wraps.1);
      Ok(Sampler(filters, (s, t)))
  }

  /** parseSampler, with each wrap read from its own property. */
  function SamplerOf(j: JsonSampler, defaultFilters: (TextureFilter, TextureFilter)): Parsed<Sampler> {
    SamplerFrom(j, defaultFilters, WrapCodes(j))
  }

  /** parseSampler as written, reading wrapT through the wrapS iterator. */
  function SamplerOfAsWritten(j: JsonSampler, defaultFilters: (TextureFilter, TextureFilter), endValue: int): Parsed<Sampler> {
    SamplerFrom(j, defaultFilters, WrapCodesAsWritten(j, endValue))
  }

  /** Each wrap of a parsed sampler is the one its own property names (REPEAT when
      absent), and a sampler is refused exactly when one of the two is not a wrap. */
  lemma SamplerWrapsFollowJson(j: JsonSampler, defaultFilters: (TextureFilter, TextureFilter))
    ensures var r := SamplerOf(j, defaultFilters);
      && (r.Ok? <==> ToTextureWrap(j.wrapS.GetOr(10497)).Some? && ToTextureWrap(j.wrapT.GetOr(10497)).Some?)
      && (r.Ok? ==>
            && TextureWrapCode(r.value.wraps.0) == j.wrapS.GetOr(10497)
            && TextureWrapCode(r.value.wraps.1) == j.wrapT.GetOr(10497))
  {
  }

  /** The as-written parse gives a present wrapT the value of wrapS: the sampler
      {"wrapS": 10497, "wrapT": 33071} is read as REPEAT in both directions, where its
      T wrap is CLAMP_TO_EDGE. */
  lemma AsWrittenWrapTCopiesWrapS(j: JsonSampler, defaultFilters: (TextureFilter, TextureFilter), endValue: int)
    ensures j.wrapS.Some? && j.wrapT.Some? && SamplerOfAsWritten(j, defaultFilters, endValue).Ok? ==>
      SamplerOfAsWritten(j, defaultFilters, endValue).value.wraps.1 == SamplerOfAsWritten(j, defaultFilters, endValue).value.wraps.0
    ensures var k := JsonSampler(None, None, Some(10497), Some(33071));
      && SamplerOfAsWritten(k, defaultFilters, endValue).Ok?
      && SamplerOfAsWritten(k, defaultFilters, endValue).value.wraps == (Repeat, Repeat)
      && SamplerOf(k, defaultFilters).Ok?
      && SamplerOf(k, defaultFilters).value.wraps == (Repeat, ClampToEdge)
  {
    var k := JsonSampler(None, None, Some(10497), Some(33071));
    assert WrapCodesAsWritten(k, endValue) == (10497, 10497);
    assert WrapCodes(k) == (10497, 33071);
    if j.wrapS.Some? && j.wrapT.Some? && SamplerOfAsWritten(j, defaultFilters, endValue).Ok? {
      var w := SamplerOfAsWritten(j, defaultFilters, endValue).value.wraps;
      assert TextureWrapCode(w.0) == TextureWrapCode(w.1);
    }
  }

  /** The filters never refuse a sampler: an invalid one leaves the default filter in
      place, and an absent one is NEAREST. */
  lemma SamplerFiltersNeverRefuse(j: JsonSampler, defaultFilters: (TextureFilter, TextureFilter), endValue: int,
                                  minFilter: Option<int>, magFilter: Option<int>)
    ensures SamplerOfAsWritten(j.(minFilter := minFilter, magFilter := magFilter), defaultFilters, endValue).Ok?
      == SamplerOfAsWritten(j, defaultFilters, endValue).Ok?
    ensures var r := SamplerOfAsWritten(j, defaultFilters, endValue);
      r.Ok? ==>
        && r.value.filters.0 == FilterOr(j.minFilter.GetOr(9728), defaultFilters.0)
        && r.value.filters.1 == FilterOr(j.magFilter.GetOr(9728), defaultFilters.1)
        && (j.minFilter.None? ==> r.value.filters.0 == Nearest)
        && (j.magFilter.None? ==> r.value.filters.1 == Nearest)
  {
  }

  /** A sampler with no properties is NEAREST filtered and REPEAT wrapped, whatever
      the default filters. */
  lemma EmptySamplerDefaults(defaultFilters: (TextureFilter, TextureFilter), endValue: int)
    ensures SamplerOfAsWritten(JsonSampler(None, None, None, None), defaultFilters, endValue)
      == Ok(Sampler((Nearest, Nearest), (Repeat, Repeat)))
  {
    assert WrapCodesAsWritten(JsonSampler(None, None, None, None), endValue) == (10497, 10497);
  }

  /** parseNode: a camera and a mesh, when present, must exist (the camera is checked
      first); the children default to none. */
  function NodeOf(j: JsonNode, cameraCount: nat, meshCount: nat): (r: Parsed<Node>)
    ensures r.Ok? <==> (j.camera.None? || j.camera.value < cameraCount) && (j.mesh.None? || j.mesh.value < meshCount)
    ensures r.Ok? ==>
      && (r.value.hasCamera <==> j.camera.Some?) && (r.value.hasCamera ==> r.value.cameraId < cameraCount)
      && (r.value.hasMesh <==> j.mesh.Some?) && (r.value.hasMesh ==> r.value.meshId < meshCount)
      && r.value.children == Elements(j.children)
    ensures j.camera.Some? && j.camera.value >= cameraCount ==> r == Err(IndexOutOfRange(Cameras, j.camera.value))
    ensures (j.camera.None? || j.camera.value < cameraCount) && j.mesh.Some? && j.mesh.value >= meshCount
      ==> r == Err(IndexOutOfRange(Meshes, j.mesh.value))
  {
    if j.camera.Some? && j.camera.value >= cameraCount then Err(IndexOutOfRange(Cameras, j.camera.value))
    else if j.mesh.Some? && j.mesh.value >= meshCount then Err(IndexOutOfRange(Meshes, j.mesh.value))
    else Ok(Node(j.camera.GetOr(0), j.mesh.GetOr(0), j.camera.Some?, j.mesh.Some?, Elements(j.children), NodeData(j.name.GetOr(""))))
  }

  /** An image, texture, material, mesh or camera. */
  function ElementOf(j: JsonElement): (r: Parsed<()>)
    ensures r.Ok? <==> j.parses
  {
    if j.parses then Ok(()) else Err(ElementRefused)
  }

  // ---------------------------------------------------------------- sections

  /** Every element parses, to the item at its position. */
  ghost predicate ParsesTo<J, T>(js: seq<J>, items: seq<T>, parse: J -> Parsed<T>) {
    |items| == |js| && forall i :: 0 <= i < |js| ==> parse(js[i]) == Ok(items[i])
  }

  /** One section of parseGLTF: the elements are parsed in order and the first one
      refused stops the section, with its position and reason; the items parsed
      before it are kept. */
  method ParseEach<J, T>(js: seq<J>, parse: J -> Parsed<T>) returns (items: seq<T>, failure: Option<(nat, Reason)>)
    ensures |items| <= |js| && forall i :: 0 <= i < |items| ==> parse(js[i]) == Ok(items[i])
    ensures failure.None? ==> |items| == |js|
    ensures failure.Some? ==> failure.value.0 == |items| < |js| && parse(js[|items|]) == Err(failure.value.1)
  {
    items := [];
    for i := 0 to |js|
      invariant |items| == i
      invariant forall k :: 0 <= k < i ==> parse(js[k]) == Ok(items[k])
    {
      match parse(js[i])
      case Err(reason) =>
        return items, Some((i, reason));
      case Ok(item) =>
        items := items + [item];
    }
    failure := None;
  }

  /** `id` is listed as a child by the glTF node of one of the scene nodes `created`. */
  ghost predicate ChildOfMade(nodes: seq<Node>, created: seq<SceneNode>, id: nat) {
    exists k :: 0 <= k < |created| && created[k].nodeId < |nodes| && id in nodes[created[k].nodeId].children
  }

  /** The stack entries pushed for the children of a node: (node, child), in order. */
  function ChildEntries(nodeId: nat, children: seq<nat>): (entries: seq<(int, nat)>)
    ensures |entries| == |children|
    ensures forall i :: 0 <= i < |children| ==> entries[i] == (nodeId as int, children[i])
    ensures forall c :: c in children ==> (nodeId as int, c) in entries
  {
    if children == [] then []
    else
      assert forall c :: c in children ==> c == children[0] || c in children[1..];
      [(nodeId as int, children[0])] + ChildEntries(nodeId, children[1..])
  }

  /** The glTF nodes of the root scene nodes (those inserted under no parent), in the
      order they were made. */
  function Roots(created: seq<SceneNode>): (r: seq<nat>)
    ensures |r| <= |created|
  {
    if created == [] then []
    else
      var last := created[|created| - 1];
      Roots(created[..|created| - 1]) + (if last.parent.None? then [last.nodeId] else [])
  }

  /** Every scene node inserted under a parent hangs under an earlier scene node of the
      same scene, made for a glTF node that has it as a child, and made last among the
      scene nodes for that glTF node before it. */
  predicate SceneTree(nodes: seq<Node>, sceneIndex: nat, created: seq<SceneNode>) {
    forall k {:trigger created[k].parent} :: 0 <= k < |created| && created[k].parent.Some? ==>
      var ref := created[k].parent.value;
      && ref.scene == sceneIndex && ref.index < k
      && created[ref.index].nodeId < |nodes|
      && created[k].nodeId in nodes[created[ref.index].nodeId].children
      && forall k' :: ref.index < k' < k ==> created[k'].nodeId != created[ref.index].nodeId
  }

  /** Some scene node of `c` hangs under a scene node of `p`. */
  ghost predicate HasChild(created: seq<SceneNode>, c: nat, p: nat) {
    exists k' {:trigger created[k'].parent} :: 0 <= k' < |created| && created[k'].nodeId == c && created[k'].parent.Some?
      && created[k'].parent.value.index < |created| && created[created[k'].parent.value.index].nodeId == p
  }

  /** Every child of the glTF node of every scene node was made, under a scene node of
      that glTF node. */
  ghost predicate ChildrenBuilt(nodes: seq<Node>, created: seq<SceneNode>) {
    forall k, c :: 0 <= k < |created| && created[k].nodeId < |nodes| && c in nodes[created[k].nodeId].children ==>
      HasChild(created, c, created[k].nodeId)
  }

  /** Every child of every node of `created` has been made, or is still on the stack
      below that node, or belongs to the root whose entry (-1, root) is not yet popped. */
  ghost predicate ChildrenPending(nodes: seq<Node>, created: seq<SceneNode>, stack: seq<(int, nat)>, rootSlot: nat, rootId: nat)
    requires forall k :: 0 <= k < |created| ==> created[k].nodeId < |nodes|
  {
    forall k, c :: 0 <= k < |created| && c in nodes[created[k].nodeId].children ==>
      HasChild(created, c, created[k].nodeId) || (created[k].nodeId as int, c) in stack
      || (k == rootSlot && (-1, rootId) in stack)
  }

  /** The slot of glTF node `p` points at the scene node made last for it in this scene. */
  ghost predicate Recorded(slots: seq<Option<SceneNodeRef>>, sceneIndex: nat, created: seq<SceneNode>, p: nat)
    requires p < |slots|
  {
    && slots[p].Some? && slots[p].value.scene == sceneIndex && slots[p].value.index < |created|
    && created[slots[p].value.index].nodeId == p
    && forall k' :: slots[p].value.index < k' < |created| ==> created[k'].nodeId != p
  }

  /** Each stack entry under a parent names a child of that parent, whose slot is
      recorded. */
  ghost predicate ParentsRecorded(nodes: seq<Node>, slots: seq<Option<SceneNodeRef>>, sceneIndex: nat,
                                  created: seq<SceneNode>, stack: seq<(int, nat)>)
    requires |slots| == |nodes|
  {
    forall i :: 0 <= i < |stack| && stack[i].0 >= 0 ==>
      && stack[i].0 < |nodes| && stack[i].1 in nodes[stack[i].0].children
      && Recorded(slots, sceneIndex, created, stack[i].0 as nat)
  }

  /** Inserting child `c` under the recorded slot of its parent `p` keeps the tree
      shape and adds no root. */
  lemma InsertKeepsTree(nodes: seq<Node>, slots: seq<Option<SceneNodeRef>>, sceneIndex: nat,
                        created: seq<SceneNode>, p: nat, c: nat)
    requires |slots| == |nodes| && p < |nodes| && c in nodes[p].children
    requires SceneTree(nodes, sceneIndex, created) && Recorded(slots, sceneIndex, created, p)
    ensures SceneTree(nodes, sceneIndex, created + [SceneNode(c, slots[p])])
    ensures Roots(created + [SceneNode(c, slots[p])]) == Roots(created)
  {
    RootsAppend(created, SceneNode(c, slots[p]));
    var created' := created + [SceneNode(c, slots[p])];
    forall k | 0 <= k < |created'| && created'[k].parent.Some?
      ensures var ref := created'[k].parent.value;
        && ref.scene == sceneIndex && ref.index < k
        && created'[ref.index].nodeId < |nodes|
        && created'[k].nodeId in nodes[created'[ref.index].nodeId].children
        && forall k' :: ref.index < k' < k ==> created'[k'].nodeId != created'[ref.index].nodeId
    {
      if k < |created| {
        assert created'[k] == created[k];
        assert created'[created[k].parent.value.index] == created[created[k].parent.value.index];
      }
    }
  }

  /** Inserting child `c` under the recorded slot of `p` and pushing the children of
      `c` keeps every entry's parent recorded. */
  lemma InsertKeepsRecords(nodes: seq<Node>, slots: seq<Option<SceneNodeRef>>, sceneIndex: nat,
                           created: seq<SceneNode>, before: seq<(int, nat)>, p: nat, c: nat)
    requires |slots| == |nodes| && p < |nodes| && c < |nodes| && before != []
    requires Recorded(slots, sceneIndex, created, p)
    requires ParentsRecorded(nodes, slots, sceneIndex, created, before)
    ensures var created' := created + [SceneNode(c, slots[p])];
      var slots' := slots[c := Some(SceneNodeRef(sceneIndex, |created|))];
      ParentsRecorded(nodes, slots', sceneIndex, created', before[..|before| - 1] + ChildEntries(c, nodes[c].children))
  {
    var stack := before[..|before| - 1];
    assert forall i :: 0 <= i < |stack| ==> stack[i] == before[i];
    var created' := created + [SceneNode(c, slots[p])];
    var slots' := slots[c := Some(SceneNodeRef(sceneIndex, |created|))];
    var stack' := stack + ChildEntries(c, nodes[c].children);
    forall i | 0 <= i < |stack'| && stack'[i].0 >= 0
      ensures && stack'[i].0 < |nodes| && stack'[i].1 in nodes[stack'[i].0].children
        && Recorded(slots', sceneIndex, created', stack'[i].0 as nat)
    {
      var q := stack'[i].0 as nat;
      if i < |stack| {
        assert stack'[i] == stack[i];
        if q != c {
          assert created'[slots[q].value.index] == created[slots[q].value.index];
        }
      }
    }
  }

  /** Popping (p, c) with p a node, making a scene node for c and pushing the children
      of c keeps every child pending or made. */
  lemma InsertKeepsPending(nodes: seq<Node>, slots: seq<Option<SceneNodeRef>>, sceneIndex: nat,
                           created: seq<SceneNode>, before: seq<(int, nat)>, rootSlot: nat, rootId: nat, p: nat, c: nat)
    requires |slots| == |nodes| && p < |nodes| && c < |nodes|
    requires forall k :: 0 <= k < |created| ==> created[k].nodeId < |nodes|
    requires before != [] && before[|before| - 1] == (p as int, c)
    requires Recorded(slots, sceneIndex, created, p)
    requires ChildrenPending(nodes, created, before, rootSlot, rootId)
    ensures var created' := created + [SceneNode(c, slots[p])];
      ChildrenPending(nodes, created', before[..|before| - 1] + ChildEntries(c, nodes[c].children), rootSlot, rootId)
  {
    var x := SceneNode(c, slots[p]);
    var created' := created + [x];
    var stack' := before[..|before| - 1] + ChildEntries(c, nodes[c].children);
    assert created'[|created|] == x;
    assert created'[slots[p].value.index] == created[slots[p].value.index];
    assert HasChild(created', c, p);
    forall k, cc | 0 <= k < |created'| && cc in nodes[created'[k].nodeId].children
      ensures HasChild(created', cc, created'[k].nodeId) || (created'[k].nodeId as int, cc) in stack'
        || (k == rootSlot && (-1, rootId) in stack')
    {
      if k < |created| {
        assert created'[k] == created[k];
        var e := (created[k].nodeId as int, cc);
        if HasChild(created, cc, created[k].nodeId) {
          HasChildGrows(created, x, cc, created[k].nodeId);
        } else if e in before && e != before[|before| - 1] {
          var i :| 0 <= i < |before| && before[i] == e;
          assert stack'[i] == e;
        } else if k == rootSlot && (-1, rootId) in before {
          var i :| 0 <= i < |before| && before[i] == (-1, rootId);
          assert stack'[i] == (-1, rootId);
        }
      }
    }
  }

  /** Popping the root entry and pushing the root's children keeps every child pending
      or made, and every entry's parent recorded. */
  lemma RootPopKeeps(nodes: seq<Node>, slots: seq<Option<SceneNodeRef>>, sceneIndex: nat,
                     created: seq<SceneNode>, rootSlot: nat, rootId: nat)
    requires |slots| == |nodes| && rootId < |nodes|
    requires forall k :: 0 <= k < |created| ==> created[k].nodeId < |nodes|
    requires |created| == rootSlot + 1 && created[rootSlot].nodeId == rootId
    requires slots[rootId] == Some(SceneNodeRef(sceneIndex, rootSlot))
    requires ChildrenPending(nodes, created, [(-1, rootId)], rootSlot, rootId)
    ensures ParentsRecorded(nodes, slots, sceneIndex, created, ChildEntries(rootId, nodes[rootId].children))
    ensures ChildrenPending(nodes, created, ChildEntries(rootId, nodes[rootId].children), rootSlot, rootId)
  {
  }

  lemma RootsAppend(created: seq<SceneNode>, x: SceneNode)
    ensures Roots(created + [x]) == Roots(created) + (if x.parent.None? then [x.nodeId] else [])
  {
    assert (created + [x])[..|created|] == created;
  }

  lemma HasChildGrows(created: seq<SceneNode>, x: SceneNode, c: nat, p: nat)
    requires HasChild(created, c, p)
    ensures HasChild(created + [x], c, p)
  {
    var k' :| 0 <= k' < |created| && created[k'].nodeId == c && created[k'].parent.Some?
      && created[k'].parent.value.index < |created| && created[created[k'].parent.value.index].nodeId == p;
    assert (created + [x])[k'] == created[k'];
    assert (created + [x])[created[k'].parent.value.index] == created[created[k'].parent.value.index];
  }

  /** Each slot of `slots` the walk rewrote points at the scene node it created for
      that glTF node. */
  ghost predicate SlotsTrack(slots0: seq<Option<SceneNodeRef>>, slots: seq<Option<SceneNodeRef>>, sceneIndex: nat, created: seq<SceneNode>)
    requires |slots| == |slots0|
  {
    forall id :: 0 <= id < |slots| && slots[id] != slots0[id] ==>
      && slots[id].Some? && slots[id].value.scene == sceneIndex
      && slots[id].value.index < |created| && created[slots[id].value.index].nodeId == id
  }

  /** What holds of the walk below a root between two steps: the scene nodes made so
      far form a tree of this scene with the roots `rootsMade`, every entry's parent is
      recorded, and every child is made or pending. */
  ghost predicate Walking(nodes: seq<Node>, slots0: seq<Option<SceneNodeRef>>, sceneIndex: nat,
                          slots: seq<Option<SceneNodeRef>>, created: seq<SceneNode>, stack: seq<(int, nat)>,
                          rootSlot: nat, rootId: nat, rootsMade: seq<nat>)
  {
    && |slots0| == |slots| == |nodes|
    && (forall k :: 0 <= k < |created| ==> created[k].nodeId < |nodes|)
    && SlotsTrack(slots0, slots, sceneIndex, created)
    && SceneTree(nodes, sceneIndex, created)
    && Roots(created) == rootsMade
    && rootSlot < |created| && created[rootSlot].nodeId == rootId
    && (forall i :: 0 <= i < |stack| ==> stack[i].0 < |nodes|)
    && ParentsRecorded(nodes, slots, sceneIndex, created, stack)
    && ChildrenPending(nodes, created, stack, rootSlot, rootId)
  }

  /** One step of the walk that pops (p, c) with p a node and c a node: c is inserted
      under the recorded slot of p, its slot is updated, and its children are pushed. */
  lemma WalkChildStep(nodes: seq<Node>, slots0: seq<Option<SceneNodeRef>>, sceneIndex: nat,
                      slots: seq<Option<SceneNodeRef>>, created: seq<SceneNode>, before: seq<(int, nat)>,
                      rootSlot: nat, rootId: nat, rootsMade: seq<nat>)
    requires Walking(nodes, slots0, sceneIndex, slots, created, before, rootSlot, rootId, rootsMade)
    requires before != [] && before[|before| - 1].0 >= 0 && before[|before| - 1].1 < |nodes|
    ensures var (p, c) := before[|before| - 1];
      Walking(nodes, slots0, sceneIndex,
              slots[c := Some(SceneNodeRef(sceneIndex, |created|))], created + [SceneNode(c, slots[p])],
              before[..|before| - 1] + ChildEntries(c, nodes[c].children), rootSlot, rootId, rootsMade)
  {
    var (p, c) := before[|before| - 1];
    InsertKeepsTree(nodes, slots, sceneIndex, created, p as nat, c);
    InsertKeepsRecords(nodes, slots, sceneIndex, created, before, p as nat, c);
    InsertKeepsPending(nodes, slots, sceneIndex, created, before, rootSlot, rootId, p as nat, c);
    SlotsTrackStep(slots0, slots, sceneIndex, created, c, slots[p]);
    BoundsStep(nodes, created, before, SceneNode(c, slots[p]));
    assert (created + [SceneNode(c, slots[p])])[rootSlot] == created[rootSlot];
  }

  /** Making a scene node for a glTF node and pushing that node's children keeps every
      scene node and every stack entry naming a node. */
  lemma BoundsStep(nodes: seq<Node>, created: seq<SceneNode>, before: seq<(int, nat)>, x: SceneNode)
    requires before != [] && x.nodeId < |nodes|
    requires forall k :: 0 <= k < |created| ==> created[k].nodeId < |nodes|
    requires forall i :: 0 <= i < |before| ==> before[i].0 < |nodes|
    ensures forall k :: 0 <= k < |created + [x]| ==> (created + [x])[k].nodeId < |nodes|
    ensures var stack' := before[..|before| - 1] + ChildEntries(x.nodeId, nodes[x.nodeId].children);
      forall i :: 0 <= i < |stack'| ==> stack'[i].0 < |nodes|
  {
    assert forall k :: 0 <= k < |created| ==> (created + [x])[k] == created[k];
    var stack := before[..|before| - 1];
    var stack' := stack + ChildEntries(x.nodeId, nodes[x.nodeId].children);
    forall i | 0 <= i < |stack'|
      ensures stack'[i].0 < |nodes|
    {
      if i < |stack| {
        assert stack'[i] == before[i];
      } else {
        assert stack'[i] == ChildEntries(x.nodeId, nodes[x.nodeId].children)[i - |stack|];
      }
    }
  }

  /** Pushing the children of a node keeps every entry's parent a node id. */
  lemma PushKeepsParents(before: seq<(int, nat)>, c: nat, children: seq<nat>)
    requires before != [] && forall i :: 0 <= i < |before| ==> before[i].0 >= 0
    ensures var stack' := before[..|before| - 1] + ChildEntries(c, children);
      forall i :: 0 <= i < |stack'| ==> stack'[i].0 >= 0
  {
    var stack' := before[..|before| - 1] + ChildEntries(c, children);
    forall i | 0 <= i < |stack'|
      ensures stack'[i].0 >= 0
    {
      if i < |before| - 1 {
        assert stack'[i] == before[i];
      } else {
        assert stack'[i] == ChildEntries(c, children)[i - (|before| - 1)];
      }
    }
  }

  /** Recording a new scene node for glTF node `c` keeps every rewritten slot pointing
      at a scene node made for its glTF node. */
  lemma SlotsTrackStep(slots0: seq<Option<SceneNodeRef>>, slots: seq<Option<SceneNodeRef>>, sceneIndex: nat,
                       created: seq<SceneNode>, c: nat, parent: Option<SceneNodeRef>)
    requires |slots| == |slots0| && c < |slots|
    requires SlotsTrack(slots0, slots, sceneIndex, created)
    ensures SlotsTrack(slots0, slots[c := Some(SceneNodeRef(sceneIndex, |created|))], sceneIndex,
                       created + [SceneNode(c, parent)])
  {
    var created' := created + [SceneNode(c, parent)];
    var slots' := slots[c := Some(SceneNodeRef(sceneIndex, |created|))];
    forall id | 0 <= id < |slots'| && slots'[id] != slots0[id]
      ensures && slots'[id].Some? && slots'[id].value.scene == sceneIndex
        && slots'[id].value.index < |created'| && created'[slots'[id].value.index].nodeId == id
    {
      if id != c {
        assert created'[slots[id].value.index] == created[slots[id].value.index];
      }
    }
  }

  /** The child of a stack entry under a parent is listed by the glTF node of a scene
      node already made: the one recorded for that parent. */
  lemma PoppedChildOfMade(nodes: seq<Node>, slots: seq<Option<SceneNodeRef>>, sceneIndex: nat,
                          created: seq<SceneNode>, stack: seq<(int, nat)>)
    requires |slots| == |nodes| && stack != [] && stack[|stack| - 1].0 >= 0
    requires forall k :: 0 <= k < |created| ==> created[k].nodeId < |nodes|
    requires ParentsRecorded(nodes, slots, sceneIndex, created, stack)
    ensures ChildOfMade(nodes, created, stack[|stack| - 1].1)
  {
    var (p, c) := stack[|stack| - 1];
    assert Recorded(slots, sceneIndex, created, p as nat);
    var k := slots[p].value.index;
    assert created[k].nodeId == p;
  }

  // ---------------------------------------------------------------- counting children

  /** The glTF ids of the scene nodes made directly under scene node `k`, in order. */
  function ChildIds(created: seq<SceneNode>, k: nat): seq<nat>
    decreases |created|
  {
    if created == [] then []
    else
      var last := created[|created| - 1];
      ChildIds(created[..|created| - 1], k) + (if last.parent.Some? && last.parent.value.index == k then [last.nodeId] else [])
  }

  /** One scene node per child entry: under every scene node hang exactly the children
      its glTF node lists, each as often as it is listed. */
  ghost predicate ChildrenCounted(nodes: seq<Node>, created: seq<SceneNode>) {
    forall k {:trigger ChildIds(created, k)} :: 0 <= k < |created| && created[k].nodeId < |nodes| ==>
      multiset(ChildIds(created, k)) == multiset(nodes[created[k].nodeId].children)
  }

  /** Each id counted under scene node k is the glTF node of a scene node made under k. */
  lemma {:induction false} ChildIdsMember(created: seq<SceneNode>, k: nat, c: nat) returns (j: nat)
    requires c in ChildIds(created, k)
    ensures j < |created| && created[j].nodeId == c && created[j].parent.Some? && created[j].parent.value.index == k
    decreases |created|
  {
    var init, last := created[..|created| - 1], created[|created| - 1];
    if last.parent.Some? && last.parent.value.index == k && c == last.nodeId {
      j := |created| - 1;
    } else {
      j := ChildIdsMember(init, k, c);
      assert created[j] == init[j];
    }
  }

  /** Counting implies building: every child listed is made under its parent's scene node. */
  lemma CountedIsBuilt(nodes: seq<Node>, created: seq<SceneNode>)
    requires ChildrenCounted(nodes, created)
    ensures ChildrenBuilt(nodes, created)
  {
    forall k, c | 0 <= k < |created| && created[k].nodeId < |nodes| && c in nodes[created[k].nodeId].children
      ensures HasChild(created, c, created[k].nodeId)
    {
      assert c in multiset(ChildIds(created, k));
      var j := ChildIdsMember(created, k, c);
      assert created[j].parent.value.index < |created| && created[created[j].parent.value.index].nodeId == created[k].nodeId;
    }
  }

  lemma ChildIdsAppend(created: seq<SceneNode>, x: SceneNode, k: nat)
    ensures ChildIds(created + [x], k)
         == ChildIds(created, k) + (if x.parent.Some? && x.parent.value.index == k then [x.nodeId] else [])
  {
    assert (created + [x])[..|created|] == created;
  }

  /** No scene node hangs under one made last or not made at all. */
  lemma {:induction false} ChildIdsNone(created: seq<SceneNode>, k: nat)
    requires forall j :: 0 <= j < |created| && created[j].parent.Some? ==> created[j].parent.value.index < j
    requires |created| <= k + 1
    ensures ChildIds(created, k) == []
    decreases |created|
  {
    if created != [] {
      var init := created[..|created| - 1];
      assert forall j :: 0 <= j < |init| ==> init[j] == created[j];
      ChildIdsNone(init, k);
    }
  }

  /** The children of the stack entries charged to scene node `k`: when popped, each
      makes a scene node under `k`. */
  ghost function Pending(stack: seq<(int, nat)>, owners: seq<nat>, k: nat): seq<nat>
    requires |owners| == |stack|
    decreases |stack|
  {
    if stack == [] then []
    else
      var t := |stack| - 1;
      Pending(stack[..t], owners[..t], k) + (if stack[t].0 >= 0 && owners[t] == k then [stack[t].1] else [])
  }

  /** `count` entries all charged to scene node `k`. */
  ghost function Owned(k: nat, count: nat): (r: seq<nat>)
    ensures |r| == count && forall i :: 0 <= i < count ==> r[i] == k
  {
    seq(count, _ => k)
  }

  lemma {:induction false} PendingConcat(s1: seq<(int, nat)>, o1: seq<nat>, s2: seq<(int, nat)>, o2: seq<nat>, k: nat)
    requires |o1| == |s1| && |o2| == |s2|
    ensures Pending(s1 + s2, o1 + o2, k) == Pending(s1, o1, k) + Pending(s2, o2, k)
    decreases |s2|
  {
    if s2 != [] {
      var t := |s2| - 1;
      assert (s1 + s2)[..|s1| + t] == s1 + s2[..t] && (o1 + o2)[..|o1| + t] == o1 + o2[..t];
      PendingConcat(s1, o1, s2[..t], o2[..t], k);
    } else {
      assert s1 + s2 == s1 && o1 + o2 == o1;
    }
  }

  /** The entries pushed for the children of `c`, all charged to `n`, are pending under
      `n` only. */
  lemma {:induction false} PendingOfEntries(c: nat, children: seq<nat>, n: nat, k: nat)
    ensures Pending(ChildEntries(c, children), Owned(n, |children|), k) == (if k == n then children else [])
    decreases |children|
  {
    if children != [] {
      var t := |children| - 1;
      var entries := ChildEntries(c, children);
      assert entries[..t] == ChildEntries(c, children[..t]);
      assert Owned(n, |children|)[..t] == Owned(n, t);
      PendingOfEntries(c, children[..t], n, k);
      assert children[..t] + [children[t]] == children;
    }
  }

  /** No entry is pending under a scene node no entry is charged to. */
  lemma {:induction false} PendingNone(stack: seq<(int, nat)>, owners: seq<nat>, k: nat)
    requires |owners| == |stack|
    requires forall i :: 0 <= i < |stack| && stack[i].0 >= 0 ==> owners[i] != k
    ensures Pending(stack, owners, k) == []
    decreases |stack|
  {
    if stack != [] {
      var t := |stack| - 1;
      assert forall i :: 0 <= i < t ==> stack[..t][i] == stack[i] && owners[..t][i] == owners[i];
      PendingNone(stack[..t], owners[..t], k);
    }
  }

  /** Each node after the first on `path` is a child of the one before it. */
  ghost predicate NodePath(nodes: seq<Node>, path: seq<nat>) {
    forall i :: 0 <= i < |path| - 1 ==> path[i] < |nodes| && path[i + 1] in nodes[path[i]].children
  }

  /** A path from `c` that comes back to a node already on it. */
  ghost predicate CyclePath(nodes: seq<Node>, c: nat, path: seq<nat>) {
    |path| >= 2 && path[0] == c && NodePath(nodes, path) && path[|path| - 1] in path[..|path| - 1]
  }

  /** From glTF node `c` the children lead round a cycle: a walk that pops an entry for
      `c` never empties its stack. */
  ghost predicate Cyclic(nodes: seq<Node>, c: nat) {
    exists path :: CyclePath(nodes, c, path)
  }

  /** Some stack entry leads round a cycle. */
  ghost predicate Doomed(nodes: seq<Node>, stack: seq<(int, nat)>) {
    exists i :: 0 <= i < |stack| && Cyclic(nodes, stack[i].1)
  }

  /** A node that leads round a cycle is a node, and one of its children does too. */
  lemma CyclicChild(nodes: seq<Node>, c: nat) returns (d: nat)
    requires Cyclic(nodes, c)
    ensures c < |nodes| && d in nodes[c].children && Cyclic(nodes, d)
  {
    var path :| CyclePath(nodes, c, path);
    var m := |path| - 1;
    d := path[1];
    var j :| 0 <= j < m && path[j] == path[m];
    if j >= 1 {
      var tail := path[1..];
      assert tail[j - 1] == tail[|tail| - 1];
      assert CyclePath(nodes, d, tail);
    } else {
      var loop := path[1..] + [d];
      forall i | 0 <= i < |loop| - 1
        ensures loop[i] < |nodes| && loop[i + 1] in nodes[loop[i]].children
      {
        if i < m - 1 {
          assert loop[i] == path[i + 1] && loop[i + 1] == path[i + 2];
        } else {
          assert loop[i] == path[m] == c && loop[i + 1] == d;
        }
      }
      assert loop[0] == loop[|loop| - 1];
      assert CyclePath(nodes, d, loop);
    }
  }

  /** A stack that leads round a cycle still does after the top entry is popped and
      its node's children are pushed. */
  lemma DoomStays(nodes: seq<Node>, before: seq<(int, nat)>, c: nat)
    requires Doomed(nodes, before) && before != [] && before[|before| - 1].1 == c && c < |nodes|
    ensures Doomed(nodes, before[..|before| - 1] + ChildEntries(c, nodes[c].children))
  {
    var t := |before| - 1;
    var stack' := before[..t] + ChildEntries(c, nodes[c].children);
    var i :| 0 <= i < |before| && Cyclic(nodes, before[i].1);
    if i < t {
      assert stack'[i] == before[i];
    } else {
      DoomedByPush(nodes, before[..t], c);
    }
  }

  /** Pushing the children of a node that leads round a cycle makes the stack lead
      round one. */
  lemma DoomedByPush(nodes: seq<Node>, rest: seq<(int, nat)>, c: nat)
    requires Cyclic(nodes, c)
    ensures c < |nodes| && Doomed(nodes, rest + ChildEntries(c, nodes[c].children))
  {
    var d := CyclicChild(nodes, c);
    var entries := ChildEntries(c, nodes[c].children);
    var j :| 0 <= j < |entries| && entries[j] == (c as int, d);
    assert (rest + entries)[|rest| + j] == entries[j];
  }

  /** Scene node `a` is `b` or an ancestor of `b`. */
  ghost predicate Ancestor(created: seq<SceneNode>, a: nat, b: nat)
    decreases b
  {
    b < |created|
    && (a == b || (created[b].parent.Some? && created[b].parent.value.index < b && Ancestor(created, a, created[b].parent.value.index)))
  }

  lemma {:induction false} AncestorGrows(created: seq<SceneNode>, x: SceneNode, a: nat, b: nat)
    requires Ancestor(created, a, b)
    ensures Ancestor(created + [x], a, b)
    decreases b
  {
    assert (created + [x])[b] == created[b];
    if a != b {
      AncestorGrows(created, x, a, created[b].parent.value.index);
    }
  }

  /** The glTF nodes from a scene node down to a descendant form a path. */
  lemma {:induction false} AncestorPath(nodes: seq<Node>, sceneIndex: nat, created: seq<SceneNode>, a: nat, b: nat)
    returns (path: seq<nat>)
    requires SceneTree(nodes, sceneIndex, created) && a < |created| && Ancestor(created, a, b)
    ensures |path| >= 1 && path[0] == created[a].nodeId && path[|path| - 1] == created[b].nodeId
    ensures NodePath(nodes, path)
    decreases b
  {
    if a == b {
      path := [created[a].nodeId];
    } else {
      var pb := created[b].parent.value.index;
      var prefix := AncestorPath(nodes, sceneIndex, created, a, pb);
      path := prefix + [created[b].nodeId];
      assert created[pb].nodeId < |nodes| && created[b].nodeId in nodes[created[pb].nodeId].children;
      forall i | 0 <= i < |path| - 1
        ensures path[i] < |nodes| && path[i + 1] in nodes[path[i]].children
      {
        if i < |prefix| - 1 {
          assert path[i] == prefix[i] && path[i + 1] == prefix[i + 1];
        }
      }
    }
  }

  /** A glTF node listed as a child below one of its own scene nodes leads round a
      cycle. */
  lemma RemadeBelowIsCyclic(nodes: seq<Node>, sceneIndex: nat, created: seq<SceneNode>, a: nat, o: nat, c: nat)
    requires SceneTree(nodes, sceneIndex, created) && a < |created| && Ancestor(created, a, o)
    requires created[a].nodeId == c && created[o].nodeId < |nodes| && c in nodes[created[o].nodeId].children
    ensures Cyclic(nodes, c)
  {
    var path := AncestorPath(nodes, sceneIndex, created, a, o);
    var loop := path + [c];
    forall i | 0 <= i < |loop| - 1
      ensures loop[i] < |nodes| && loop[i + 1] in nodes[loop[i]].children
    {
      if i < |path| - 1 {
        assert loop[i] == path[i] && loop[i + 1] == path[i + 1];
      }
    }
    assert loop[0] == loop[|loop| - 1] && loop[0] in loop[..|loop| - 1];
    assert CyclePath(nodes, c, loop);
  }

  /** Every stack entry under a parent is charged to the scene node its parent's slot
      points at. */
  ghost predicate OwnersRecorded(slots: seq<Option<SceneNodeRef>>, sceneIndex: nat, stack: seq<(int, nat)>, owners: seq<nat>)
    requires |owners| == |stack|
  {
    forall i :: 0 <= i < |stack| && stack[i].0 >= 0 ==>
      stack[i].0 < |slots| && slots[stack[i].0] == Some(SceneNodeRef(sceneIndex, owners[i]))
  }

  /** Entries higher on the stack are charged to descendants of the scene nodes those
      below are charged to. */
  ghost predicate OwnersNested(created: seq<SceneNode>, owners: seq<nat>) {
    forall i, j :: 0 <= i < j < |owners| ==> Ancestor(created, owners[i], owners[j])
  }

  /** Under each scene node, the children made and the children pending are the
      children its glTF node lists. */
  ghost predicate CountsPending(nodes: seq<Node>, created: seq<SceneNode>, stack: seq<(int, nat)>, owners: seq<nat>)
    requires |owners| == |stack|
  {
    forall k {:trigger ChildIds(created, k)} :: 0 <= k < |created| && created[k].nodeId < |nodes| ==>
      multiset(ChildIds(created, k)) + multiset(Pending(stack, owners, k)) == multiset(nodes[created[k].nodeId].children)
  }

  /** The counting invariant of the walk: either some entry leads round a cycle, so
      the walk cannot finish, or every entry is charged to the scene node its parent's
      slot points at, the charges nest, and the counts add up. */
  ghost predicate Counting(nodes: seq<Node>, sceneIndex: nat, slots: seq<Option<SceneNodeRef>>, created: seq<SceneNode>,
                           stack: seq<(int, nat)>, owners: seq<nat>)
    requires |owners| == |stack|
  {
    || Doomed(nodes, stack)
    || (OwnersRecorded(slots, sceneIndex, stack, owners) && OwnersNested(created, owners)
        && CountsPending(nodes, created, stack, owners))
  }

  /** Popping the root entry and pushing the root's children, charged to the root's
      scene node, starts the count. */
  lemma CountingRootStep(nodes: seq<Node>, sceneIndex: nat, slots: seq<Option<SceneNodeRef>>, created: seq<SceneNode>, rootId: nat)
    requires created != [] && created[|created| - 1] == SceneNode(rootId, None) && rootId < |nodes|
    requires SceneTree(nodes, sceneIndex, created)
    requires ChildrenCounted(nodes, created[..|created| - 1])
    requires rootId < |slots| && slots[rootId] == Some(SceneNodeRef(sceneIndex, |created| - 1))
    ensures Counting(nodes, sceneIndex, slots, created, ChildEntries(rootId, nodes[rootId].children),
                     Owned(|created| - 1, |nodes[rootId].children|))
  {
    var r := |created| - 1;
    var children := nodes[rootId].children;
    var stack, owners := ChildEntries(rootId, children), Owned(r, |children|);
    assert OwnersRecorded(slots, sceneIndex, stack, owners);
    assert OwnersNested(created, owners) by {
      assert Ancestor(created, r, r);
    }
    assert CountsPending(nodes, created, stack, owners) by {
      RootCounts(nodes, sceneIndex, created, rootId);
    }
  }

  /** The counts when the root's children are pushed, charged to the root's scene
      node. */
  lemma RootCounts(nodes: seq<Node>, sceneIndex: nat, created: seq<SceneNode>, rootId: nat)
    requires created != [] && created[|created| - 1] == SceneNode(rootId, None) && rootId < |nodes|
    requires SceneTree(nodes, sceneIndex, created)
    requires ChildrenCounted(nodes, created[..|created| - 1])
    ensures CountsPending(nodes, created, ChildEntries(rootId, nodes[rootId].children), Owned(|created| - 1, |nodes[rootId].children|))
  {
    var r := |created| - 1;
    var children := nodes[rootId].children;
    var stack, owners := ChildEntries(rootId, children), Owned(r, |children|);
    assert forall j :: 0 <= j < |created| && created[j].parent.Some? ==> created[j].parent.value.index < j;
    forall k | 0 <= k < |created| && created[k].nodeId < |nodes|
      ensures multiset(ChildIds(created, k)) + multiset(Pending(stack, owners, k)) == multiset(nodes[created[k].nodeId].children)
    {
      if k < r {
        assert created[..r][k] == created[k];
        RootCountEarlier(nodes, created, rootId, k);
      } else {
        assert Pending(stack, owners, k) == children by {
          PendingOfEntries(rootId, children, r, k);
        }
        assert ChildIds(created, k) == [] by {
          ChildIdsNone(created, k);
        }
      }
    }
  }

  /** RootCounts at a scene node made before the root. */
  lemma RootCountEarlier(nodes: seq<Node>, created: seq<SceneNode>, rootId: nat, k: nat)
    requires created != [] && created[|created| - 1] == SceneNode(rootId, None) && rootId < |nodes|
    requires k < |created| - 1 && created[k].nodeId < |nodes|
    requires multiset(ChildIds(created[..|created| - 1], k)) == multiset(nodes[created[k].nodeId].children)
    ensures multiset(ChildIds(created, k))
      + multiset(Pending(ChildEntries(rootId, nodes[rootId].children), Owned(|created| - 1, |nodes[rootId].children|), k))
      == multiset(nodes[created[k].nodeId].children)
  {
    var r := |created| - 1;
    var pending := Pending(ChildEntries(rootId, nodes[rootId].children), Owned(r, |nodes[rootId].children|), k);
    var made := ChildIds(created, k);
    assert pending == [] by {
      PendingOfEntries(rootId, nodes[rootId].children, r, k);
    }
    assert made == ChildIds(created[..r], k) by {
      ChildIdsAppend(created[..r], created[r], k);
      assert created[..r] + [created[r]] == created;
    }
    calc {
      multiset(made) + multiset(pending);
      multiset(ChildIds(created[..r], k)) + multiset([]);
      multiset(nodes[created[k].nodeId].children);
    }
  }

  /** The top entry (p, c) is popped, c is made under p's slot and its children are
      pushed, charged to the new scene node: the counting invariant is kept. */
  lemma CountingChildStep(nodes: seq<Node>, sceneIndex: nat, slots: seq<Option<SceneNodeRef>>, created: seq<SceneNode>,
                          before: seq<(int, nat)>, owners: seq<nat>)
    requires |slots| == |nodes| && |owners| == |before| && before != []
    requires before[|before| - 1].0 >= 0 && before[|before| - 1].1 < |nodes|
    requires SceneTree(nodes, sceneIndex, created)
    requires ParentsRecorded(nodes, slots, sceneIndex, created, before)
    requires Counting(nodes, sceneIndex, slots, created, before, owners)
    ensures var (p, c) := before[|before| - 1];
      Counting(nodes, sceneIndex, slots[c := Some(SceneNodeRef(sceneIndex, |created|))], created + [SceneNode(c, slots[p])],
               before[..|before| - 1] + ChildEntries(c, nodes[c].children),
               owners[..|owners| - 1] + Owned(|created|, |nodes[c].children|))
  {
    var (p, c) := before[|before| - 1];
    var t := |before| - 1;
    if i :| (&& 0 <= i < t && before[i].0 == c as int
             && OwnersRecorded(slots, sceneIndex, before, owners) && OwnersNested(created, owners)) {
      // c is made again below a scene node of c: the walk below c is endless.
      assert Recorded(slots, sceneIndex, created, c) && Recorded(slots, sceneIndex, created, p as nat);
      assert Ancestor(created, owners[i], owners[t]);
      RemadeBelowIsCyclic(nodes, sceneIndex, created, owners[i], owners[t], c);
      DoomedByPush(nodes, before[..t], c);
    } else if Doomed(nodes, before) {
      DoomStays(nodes, before, c);
    } else {
      FreshOwnersRecorded(slots, sceneIndex, created, before, owners, nodes[c].children);
      FreshOwnersNested(sceneIndex, slots, created, before, owners, nodes[c].children);
      FreshCounts(nodes, sceneIndex, slots, created, before, owners);
    }
  }

  /** When no entry below the top (p, c) has c as its parent, the remaining entries
      keep their parents' slots and the pushed ones read the new slot of c. */
  lemma FreshOwnersRecorded(slots: seq<Option<SceneNodeRef>>, sceneIndex: nat, created: seq<SceneNode>,
                            before: seq<(int, nat)>, owners: seq<nat>, children: seq<nat>)
    requires |owners| == |before| && before != [] && before[|before| - 1].1 < |slots|
    requires forall i :: 0 <= i < |before| - 1 ==> before[i].0 != before[|before| - 1].1 as int
    requires OwnersRecorded(slots, sceneIndex, before, owners)
    ensures var c := before[|before| - 1].1;
      OwnersRecorded(slots[c := Some(SceneNodeRef(sceneIndex, |created|))], sceneIndex,
                     before[..|before| - 1] + ChildEntries(c, children), owners[..|owners| - 1] + Owned(|created|, |children|))
  {
    var c, t, n := before[|before| - 1].1, |before| - 1, |created|;
    var slots' := slots[c := Some(SceneNodeRef(sceneIndex, n))];
    var entries, charged := ChildEntries(c, children), Owned(n, |children|);
    forall i | 0 <= i < t && before[..t][i].0 >= 0
      ensures before[..t][i].0 < |slots'| && slots'[before[..t][i].0] == Some(SceneNodeRef(sceneIndex, owners[..t][i]))
    {
      assert before[..t][i] == before[i] && owners[..t][i] == owners[i];
    }
    forall i | 0 <= i < |entries| && entries[i].0 >= 0
      ensures entries[i].0 < |slots'| && slots'[entries[i].0] == Some(SceneNodeRef(sceneIndex, charged[i]))
    {
      assert entries[i].0 == c as int && charged[i] == n;
    }
    OwnersRecordedConcat(slots', sceneIndex, before[..t], owners[..t], entries, charged);
  }

  lemma OwnersRecordedConcat(slots: seq<Option<SceneNodeRef>>, sceneIndex: nat, s1: seq<(int, nat)>, o1: seq<nat>,
                             s2: seq<(int, nat)>, o2: seq<nat>)
    requires |o1| == |s1| && |o2| == |s2|
    requires OwnersRecorded(slots, sceneIndex, s1, o1) && OwnersRecorded(slots, sceneIndex, s2, o2)
    ensures OwnersRecorded(slots, sceneIndex, s1 + s2, o1 + o2)
  {
    forall i | 0 <= i < |s1 + s2| && (s1 + s2)[i].0 >= 0
      ensures (s1 + s2)[i].0 < |slots| && slots[(s1 + s2)[i].0] == Some(SceneNodeRef(sceneIndex, (o1 + o2)[i]))
    {
      if i < |s1| {
        assert (s1 + s2)[i] == s1[i] && (o1 + o2)[i] == o1[i];
      } else {
        assert (s1 + s2)[i] == s2[i - |s1|] && (o1 + o2)[i] == o2[i - |s1|];
      }
    }
  }

  /** The pushed entries are charged to the new scene node, a child of the top entry's
      scene node, so the charges still nest. */
  lemma FreshOwnersNested(sceneIndex: nat, slots: seq<Option<SceneNodeRef>>, created: seq<SceneNode>,
                          before: seq<(int, nat)>, owners: seq<nat>, children: seq<nat>)
    requires |owners| == |before| && before != []
    requires var p := before[|before| - 1].0;
      0 <= p < |slots| && slots[p] == Some(SceneNodeRef(sceneIndex, owners[|owners| - 1])) && owners[|owners| - 1] < |created|
    requires OwnersNested(created, owners)
    ensures var (p, c) := before[|before| - 1];
      OwnersNested(created + [SceneNode(c, slots[p])], owners[..|owners| - 1] + Owned(|created|, |children|))
  {
    var (p, c) := before[|before| - 1];
    var t, n, o := |before| - 1, |created|, owners[|owners| - 1];
    var x := SceneNode(c, slots[p]);
    var created', owners' := created + [x], owners[..t] + Owned(n, |children|);
    assert created'[n] == x;
    forall i, j | 0 <= i < j < |owners'|
      ensures Ancestor(created', owners'[i], owners'[j])
    {
      if j < t {
        assert owners'[i] == owners[i] && owners'[j] == owners[j];
        AncestorGrows(created, x, owners[i], owners[j]);
      } else if i < t {
        assert owners'[i] == owners[i] && owners'[j] == n;
        AncestorGrows(created, x, owners[i], o);
      } else {
        assert owners'[i] == n && owners'[j] == n;
      }
    }
  }

  /** The top entry's child moves from pending to made under its scene node, and the
      new scene node has all its children pending. */
  lemma FreshCounts(nodes: seq<Node>, sceneIndex: nat, slots: seq<Option<SceneNodeRef>>, created: seq<SceneNode>,
                    before: seq<(int, nat)>, owners: seq<nat>)
    requires |slots| == |nodes| && |owners| == |before| && before != []
    requires before[|before| - 1].0 >= 0 && before[|before| - 1].1 < |nodes|
    requires SceneTree(nodes, sceneIndex, created)
    requires ParentsRecorded(nodes, slots, sceneIndex, created, before)
    requires OwnersRecorded(slots, sceneIndex, before, owners)
    requires CountsPending(nodes, created, before, owners)
    ensures var (p, c) := before[|before| - 1];
      CountsPending(nodes, created + [SceneNode(c, slots[p])],
                    before[..|before| - 1] + ChildEntries(c, nodes[c].children),
                    owners[..|owners| - 1] + Owned(|created|, |nodes[c].children|))
  {
    var (p, c) := before[|before| - 1];
    var t, n := |before| - 1, |created|;
    var o := owners[t];
    assert Recorded(slots, sceneIndex, created, p as nat);
    var x := SceneNode(c, slots[p]);
    var created' := created + [x];
    var entries, charged := ChildEntries(c, nodes[c].children), Owned(n, |nodes[c].children|);
    var stack', owners' := before[..t] + entries, owners[..t] + charged;
    forall i | 0 <= i < |before| && before[i].0 >= 0
      ensures owners[i] < |created|
    {
      assert Recorded(slots, sceneIndex, created, before[i].0 as nat);
    }
    forall k | 0 <= k < |created'| && created'[k].nodeId < |nodes|
      ensures multiset(ChildIds(created', k)) + multiset(Pending(stack', owners', k)) == multiset(nodes[created'[k].nodeId].children)
    {
      if k < n {
        assert created'[k] == created[k];
        PendingOfEntries(c, nodes[c].children, n, k);
        FreshCountOld(nodes, created, before, owners, x, o, k);
      } else {
        FreshCountNew(nodes, created, before, owners, x);
      }
    }
  }

  /** FreshCounts at an earlier scene node `k`: the child of the top entry (p, c),
      charged to `o`, moves from pending to made under `o`. */
  lemma FreshCountOld(nodes: seq<Node>, created: seq<SceneNode>, before: seq<(int, nat)>, owners: seq<nat>,
                      x: SceneNode, o: nat, k: nat)
    requires |owners| == |before| && before != [] && owners[|owners| - 1] == o
    requires before[|before| - 1].0 >= 0 && before[|before| - 1].1 == x.nodeId < |nodes|
    requires x.parent.Some? && x.parent.value.index == o
    requires k < |created| && created[k].nodeId < |nodes|
    requires multiset(ChildIds(created, k)) + multiset(Pending(before, owners, k)) == multiset(nodes[created[k].nodeId].children)
    requires Pending(ChildEntries(x.nodeId, nodes[x.nodeId].children), Owned(|created|, |nodes[x.nodeId].children|), k) == []
    ensures multiset(ChildIds(created + [x], k))
        + multiset(Pending(before[..|before| - 1] + ChildEntries(x.nodeId, nodes[x.nodeId].children),
                           owners[..|owners| - 1] + Owned(|created|, |nodes[x.nodeId].children|), k))
        == multiset(nodes[created[k].nodeId].children)
  {
    var t := |before| - 1;
    var mine: seq<nat> := if o == k then [x.nodeId] else [];
    FreshOldMoves(nodes, created, before, owners, x, o, k);
    var made, rest := ChildIds(created, k), Pending(before[..t], owners[..t], k);
    assert multiset(made + mine) == multiset(made) + multiset(mine);
    assert multiset(rest + mine) == multiset(rest) + multiset(mine);
  }

  /** Under an older scene node, the popped entry moves from pending to made when it
      was charged there; the pushed entries are charged elsewhere. */
  lemma FreshOldMoves(nodes: seq<Node>, created: seq<SceneNode>, before: seq<(int, nat)>, owners: seq<nat>,
                      x: SceneNode, o: nat, k: nat)
    requires |owners| == |before| && before != [] && owners[|owners| - 1] == o
    requires before[|before| - 1].0 >= 0 && before[|before| - 1].1 == x.nodeId < |nodes|
    requires x.parent.Some? && x.parent.value.index == o
    requires Pending(ChildEntries(x.nodeId, nodes[x.nodeId].children), Owned(|created|, |nodes[x.nodeId].children|), k) == []
    ensures var t, mine := |before| - 1, if o == k then [x.nodeId] else [];
      && Pending(before, owners, k) == Pending(before[..t], owners[..t], k) + mine
      && ChildIds(created + [x], k) == ChildIds(created, k) + mine
      && Pending(before[..t] + ChildEntries(x.nodeId, nodes[x.nodeId].children),
                 owners[..t] + Owned(|created|, |nodes[x.nodeId].children|), k) == Pending(before[..t], owners[..t], k)
  {
    var c := x.nodeId;
    var t := |before| - 1;
    var entries, charged := ChildEntries(c, nodes[c].children), Owned(|created|, |nodes[c].children|);
    var rest := Pending(before[..t], owners[..t], k);
    ChildIdsAppend(created, x, k);
    PendingConcat(before[..t], owners[..t], entries, charged, k);
    assert rest + [] == rest;
  }

  /** FreshCounts at the new scene node: nothing hangs under it yet and all its
      children are pending. */
  lemma FreshCountNew(nodes: seq<Node>, created: seq<SceneNode>, before: seq<(int, nat)>, owners: seq<nat>, x: SceneNode)
    requires |owners| == |before| && before != [] && x.nodeId < |nodes|
    requires x.parent.Some? && x.parent.value.index < |created|
    requires forall i :: 0 <= i < |before| && before[i].0 >= 0 ==> owners[i] < |created|
    requires forall j :: 0 <= j < |created| && created[j].parent.Some? ==> created[j].parent.value.index < j
    ensures var n := |created|;
      multiset(ChildIds(created + [x], n))
        + multiset(Pending(before[..|before| - 1] + ChildEntries(x.nodeId, nodes[x.nodeId].children),
                           owners[..|owners| - 1] + Owned(n, |nodes[x.nodeId].children|), n))
        == multiset(nodes[x.nodeId].children)
  {
    var c, t, n := x.nodeId, |before| - 1, |created|;
    var entries, charged := ChildEntries(c, nodes[c].children), Owned(n, |nodes[c].children|);
    assert ChildIds(created + [x], n) == [] by {
      ChildIdsAppend(created, x, n);
      ChildIdsNone(created, n);
    }
    assert Pending(before[..t] + entries, owners[..t] + charged, n) == nodes[c].children by {
      PendingConcat(before[..t], owners[..t], entries, charged, n);
      PendingOfEntries(c, nodes[c].children, n, n);
      forall i | 0 <= i < t && before[..t][i].0 >= 0
        ensures owners[..t][i] != n
      {
        assert before[..t][i] == before[i] && owners[..t][i] == owners[i];
      }
      PendingNone(before[..t], owners[..t], n);
    }
  }

  /** An empty stack that keeps the counting invariant leaves every scene node with
      exactly its glTF node's children. */
  lemma CountingDone(nodes: seq<Node>, sceneIndex: nat, slots: seq<Option<SceneNodeRef>>, created: seq<SceneNode>)
    requires Counting(nodes, sceneIndex, slots, created, [], [])
    ensures ChildrenCounted(nodes, created)
  {
    forall k | 0 <= k < |created| && created[k].nodeId < |nodes|
      ensures multiset(ChildIds(created, k)) == multiset(nodes[created[k].nodeId].children)
    {
      assert multiset(Pending([], [], k)) == multiset{};
    }
  }

  /** What holds between two passes of the walk's loop: the walk's state (Walking),
      every entry's parent a node, and the counting invariant. */
  ghost predicate WalkCounting(nodes: seq<Node>, slots0: seq<Option<SceneNodeRef>>, sceneIndex: nat,
                               slots: seq<Option<SceneNodeRef>>, created: seq<SceneNode>, stack: seq<(int, nat)>,
                               owners: seq<nat>, rootSlot: nat, rootId: nat, rootsMade: seq<nat>)
  {
    && Walking(nodes, slots0, sceneIndex, slots, created, stack, rootSlot, rootId, rootsMade)
    && (forall i :: 0 <= i < |stack| ==> stack[i].0 >= 0)
    && |owners| == |stack|
    && Counting(nodes, sceneIndex, slots, created, stack, owners)
  }

  /** The first pass pops the root entry and pushes the root's children. */
  lemma WalkCountingStarts(nodes: seq<Node>, slots0: seq<Option<SceneNodeRef>>, sceneIndex: nat,
                           slots: seq<Option<SceneNodeRef>>, created: seq<SceneNode>, rootId: nat)
    requires created != [] && created[|created| - 1] == SceneNode(rootId, None) && rootId < |nodes|
    requires Walking(nodes, slots0, sceneIndex, slots, created, [(-1, rootId)], |created| - 1, rootId, Roots(created))
    requires slots[rootId] == Some(SceneNodeRef(sceneIndex, |created| - 1))
    requires ChildrenCounted(nodes, created[..|created| - 1])
    ensures WalkCounting(nodes, slots0, sceneIndex, slots, created, ChildEntries(rootId, nodes[rootId].children),
                         Owned(|created| - 1, |nodes[rootId].children|), |created| - 1, rootId, Roots(created))
  {
    var stack := ChildEntries(rootId, nodes[rootId].children);
    var owners := Owned(|created| - 1, |nodes[rootId].children|);
    RootPopKeeps(nodes, slots, sceneIndex, created, |created| - 1, rootId);
    assert Walking(nodes, slots0, sceneIndex, slots, created, stack, |created| - 1, rootId, Roots(created));
    forall i | 0 <= i < |stack|
      ensures stack[i].0 >= 0
    {
      assert stack[i] == (rootId as int, nodes[rootId].children[i]);
    }
    CountingRootStep(nodes, sceneIndex, slots, created, rootId);
    assert Counting(nodes, sceneIndex, slots, created, stack, owners);
  }

  /** A later pass pops (p, c) with c a node, makes c's scene node under p's slot and
      pushes c's children, charged to the new scene node. */
  lemma WalkCountingStep(nodes: seq<Node>, slots0: seq<Option<SceneNodeRef>>, sceneIndex: nat,
                         slots: seq<Option<SceneNodeRef>>, created: seq<SceneNode>, before: seq<(int, nat)>,
                         owners: seq<nat>, rootSlot: nat, rootId: nat, rootsMade: seq<nat>)
    requires WalkCounting(nodes, slots0, sceneIndex, slots, created, before, owners, rootSlot, rootId, rootsMade)
    requires before != [] && before[|before| - 1].1 < |nodes|
    ensures before[|before| - 1].0 >= 0
    ensures var (p, c) := before[|before| - 1];
      WalkCounting(nodes, slots0, sceneIndex, slots[c := Some(SceneNodeRef(sceneIndex, |created|))],
                   created + [SceneNode(c, slots[p])], before[..|before| - 1] + ChildEntries(c, nodes[c].children),
                   owners[..|owners| - 1] + Owned(|created|, |nodes[c].children|), rootSlot, rootId, rootsMade)
  {
    var (p, c) := before[|before| - 1];
    var slots', created' := slots[c := Some(SceneNodeRef(sceneIndex, |created|))], created + [SceneNode(c, slots[p])];
    var stack', owners' := before[..|before| - 1] + ChildEntries(c, nodes[c].children),
                           owners[..|owners| - 1] + Owned(|created|, |nodes[c].children|);
    assert Walking(nodes, slots0, sceneIndex, slots', created', stack', rootSlot, rootId, rootsMade) by {
      WalkChildStep(nodes, slots0, sceneIndex, slots, created, before, rootSlot, rootId, rootsMade);
    }
    assert Counting(nodes, sceneIndex, slots', created', stack', owners') by {
      CountingChildStep(nodes, sceneIndex, slots, created, before, owners);
    }
    PushKeepsParents(before, c, nodes[c].children);
  }

  /** The walk below one root: an explicit stack of (parent, child) entries, starting
      from (-1, root), inserts each descendant under the scene node last recorded for its
      parent. It stops when the fuel runs out or an id is not a node. */
  method WalkRoot(nodes: seq<Node>, slots0: seq<Option<SceneNodeRef>>, sceneIndex: nat,
                  slotsIn: seq<Option<SceneNodeRef>>, createdIn: seq<SceneNode>, rootId: nat, stepsIn: nat)
    returns (slots: seq<Option<SceneNodeRef>>, created: seq<SceneNode>, steps: nat, failure: Option<Reason>)
    requires createdIn != [] && createdIn[|createdIn| - 1] == SceneNode(rootId, None) && rootId < |nodes|
    requires Walking(nodes, slots0, sceneIndex, slotsIn, createdIn, [(-1, rootId)], |createdIn| - 1, rootId, Roots(createdIn))
    requires slotsIn[rootId] == Some(SceneNodeRef(sceneIndex, |createdIn| - 1))
    requires ChildrenCounted(nodes, createdIn[..|createdIn| - 1])
    ensures |slots| == |nodes| && steps <= stepsIn
    ensures forall k :: 0 <= k < |created| ==> created[k].nodeId < |nodes|
    ensures SlotsTrack(slots0, slots, sceneIndex, created) && SceneTree(nodes, sceneIndex, created)
    ensures Roots(created) == Roots(createdIn)
    ensures failure.None? ==> ChildrenBuilt(nodes, created) && ChildrenCounted(nodes, created)
    ensures |createdIn| <= |created| && stepsIn - steps <= |created| - |createdIn| + 1
    ensures failure.Some? ==> failure == Some(Exhausted) || (failure.value.IndexOutOfRange? && failure.value.into == Nodes && failure.value.index >= |nodes|)
    ensures failure == Some(Exhausted) ==> steps == 0
    ensures failure.Some? && failure.value.IndexOutOfRange? ==> ChildOfMade(nodes, created, failure.value.index)
  {
    slots, created, steps := slotsIn, createdIn, stepsIn;
    ghost var rootSlot := |createdIn| - 1;
    ghost var rootsMade := Roots(createdIn);
    // The stack starts as [(-1, root)]. Its first pop is written out here: the root is
    // a node and its scene node is already made, so the pass only pushes its children.
    if steps == 0 {
      return slots, created, steps, Some(Exhausted);
    }
    steps := steps - 1;
    WalkCountingStarts(nodes, slots0, sceneIndex, slots, created, rootId);
    var stack: seq<(int, nat)> := ChildEntries(rootId, nodes[rootId].children);
    // The scene node each entry is charged to.
    ghost var owners: seq<nat> := Owned(rootSlot, |nodes[rootId].children|);
    while stack != []
      invariant steps < stepsIn
      invariant |createdIn| <= |created| && stepsIn - steps <= |created| - |createdIn| + 1
      invariant WalkCounting(nodes, slots0, sceneIndex, slots, created, stack, owners, rootSlot, rootId, rootsMade)
      decreases steps
    {
      if steps == 0 {
        return slots, created, steps, Some(Exhausted);
      }
      // The entry is copied before it is popped.
      var entry := stack[|stack| - 1];
      ghost var before := stack;
      stack := stack[..|stack| - 1];
      var (parentId, currentId) := entry;
      if currentId >= |nodes| {
        PoppedChildOfMade(nodes, slots, sceneIndex, created, before);
        return slots, created, steps, Some(IndexOutOfRange(Nodes, currentId));
      }
      steps := steps - 1;
      // Only the root entry has parent -1, so currentId goes under its parent's slot.
      WalkCountingStep(nodes, slots0, sceneIndex, slots, created, before, owners, rootSlot, rootId, rootsMade);
      var slot := |created|;
      owners := owners[..|owners| - 1] + Owned(slot, |nodes[currentId].children|);
      created := created + [SceneNode(currentId, slots[parentId])];
      slots := slots[currentId := Some(SceneNodeRef(sceneIndex, slot))];
      stack := stack + ChildEntries(currentId, nodes[currentId].children);
    }
    CountingDone(nodes, sceneIndex, slots, created);
    failure := None;
  }

  /** Making a root scene node for `rootId` after a finished walk starts the walk of
      the new root. */
  lemma StartRoot(nodes: seq<Node>, slots0: seq<Option<SceneNodeRef>>, sceneIndex: nat,
                  slots: seq<Option<SceneNodeRef>>, created: seq<SceneNode>, rootId: nat)
    requires |slots0| == |slots| == |nodes| && rootId < |nodes|
    requires forall k :: 0 <= k < |created| ==> created[k].nodeId < |nodes|
    requires SlotsTrack(slots0, slots, sceneIndex, created) && SceneTree(nodes, sceneIndex, created)
    requires ChildrenBuilt(nodes, created)
    ensures var created' := created + [SceneNode(rootId, None)];
      Walking(nodes, slots0, sceneIndex, slots[rootId := Some(SceneNodeRef(sceneIndex, |created|))], created',
              [(-1, rootId)], |created|, rootId, Roots(created'))
  {
    var root := SceneNode(rootId, None);
    var created' := created + [root];
    var slots' := slots[rootId := Some(SceneNodeRef(sceneIndex, |created|))];
    forall k, c | 0 <= k < |created| && c in nodes[created[k].nodeId].children
      ensures HasChild(created', c, created[k].nodeId)
    {
      HasChildGrows(created, root, c, created[k].nodeId);
    }
    forall k | 0 <= k < |created'| && created'[k].parent.Some?
      ensures var ref := created'[k].parent.value;
        && ref.scene == sceneIndex && ref.index < k
        && created'[ref.index].nodeId < |nodes|
        && created'[k].nodeId in nodes[created'[ref.index].nodeId].children
        && forall k' :: ref.index < k' < k ==> created'[k'].nodeId != created'[ref.index].nodeId
    {
      assert created'[k] == created[k];
      assert created'[created[k].parent.value.index] == created[created[k].parent.value.index];
    }
    forall id | 0 <= id < |slots'| && slots'[id] != slots0[id]
      ensures && slots'[id].Some? && slots'[id].value.scene == sceneIndex
        && slots'[id].value.index < |created'| && created'[slots'[id].value.index].nodeId == id
    {
      if id != rootId {
        assert created'[slots[id].value.index] == created[slots[id].value.index];
      }
    }
  }

  /** The roots of scene nodes of existing glTF nodes are existing glTF nodes. */
  lemma {:induction false} RootsAreNodes(created: seq<SceneNode>, n: nat)
    requires forall k :: 0 <= k < |created| ==> created[k].nodeId < n
    ensures forall i :: 0 <= i < |Roots(created)| ==> Roots(created)[i] < n
  {
    if created != [] {
      RootsAreNodes(created[..|created| - 1], n);
    }
  }

  /** A scene whose every child was made is closed over the nodes. */
  lemma BuiltIsClosed(nodes: seq<Node>, created: seq<SceneNode>)
    requires forall k :: 0 <= k < |created| ==> created[k].nodeId < |nodes|
    requires ChildrenBuilt(nodes, created)
    ensures SceneClosed(nodes, Scene("", created))
  {
    forall k, c | 0 <= k < |created| && c in nodes[created[k].nodeId].children
      ensures c < |nodes|
    {
      var k' :| 0 <= k' < |created| && created[k'].nodeId == c && created[k'].parent.Some?
        && created[k'].parent.value.index < |created| && created[created[k'].parent.value.index].nodeId == created[k].nodeId;
    }
  }

  /** The stack entries parseScene pushes for the children of a node as written: the
      popped entry is bound by reference (GLTFReader.cpp:924-925), and the first push
      rebuilds the popped slot as (node, first child), so every later child is pushed
      with the first child as its parent. Reads through the reference after the stack
      reallocates are taken to see the slot's last value. */
  function ChildEntriesAsWritten(nodeId: nat, children: seq<nat>): (entries: seq<(int, nat)>)
    ensures |entries| == |children|
    ensures children != [] ==> entries[0] == (nodeId as int, children[0])
    ensures forall i :: 1 <= i < |children| ==> entries[i] == (children[0] as int, children[i])
  {
    if children == [] then [] else [(nodeId as int, children[0])] + ChildEntries(children[0], children[1..])
  }

  /** The pushes as written agree with the intended (node, child) entries exactly when
      the node has at most one child or lists itself first. */
  lemma ChildEntriesAsWrittenAgreeIff(nodeId: nat, children: seq<nat>)
    ensures ChildEntriesAsWritten(nodeId, children) == ChildEntries(nodeId, children)
        <==> |children| <= 1 || children[0] == nodeId
  {
    var written, intended := ChildEntriesAsWritten(nodeId, children), ChildEntries(nodeId, children);
    if |children| >= 2 && children[0] != nodeId {
      assert written[1] != intended[1];
    } else {
      assert forall i :: 0 <= i < |children| ==> written[i] == intended[i];
    }
  }

  /** How the walk below one root as written ends. */
  datatype WalkOutcome =
    | Walked(slots: seq<Option<SceneNodeRef>>, created: seq<SceneNode>)
    | OutOfRange(id: nat)
    /** The popped parent has no scene node: its slot is null or past the slots. */
    | NoParentNode(parentId: int)
    | OutOfSteps

  /** The walk below one root as written, with ChildEntriesAsWritten for the pushes;
      the source dereferences the parent's slot without a check, which the outcome
      NoParentNode records. `fuel` bounds the steps. */
  function WalkRootAsWritten(nodes: seq<Node>, sceneIndex: nat, slots: seq<Option<SceneNodeRef>>,
                             created: seq<SceneNode>, stack: seq<(int, nat)>, fuel: nat): (r: WalkOutcome)
    requires |slots| == |nodes|
    ensures r.Walked? ==> |r.slots| == |nodes| && created <= r.created
    ensures r.OutOfRange? ==> r.id >= |nodes|
    ensures r.NoParentNode? ==> r.parentId >= 0
    decreases fuel
  {
    if stack == [] then Walked(slots, created)
    else if fuel == 0 then OutOfSteps
    else
      var (p, c) := stack[|stack| - 1];
      var rest := stack[..|stack| - 1];
      if c >= |nodes| then OutOfRange(c)
      else if p >= 0 && (p >= |slots| || slots[p].None?) then NoParentNode(p)
      else if p < 0 then
        WalkRootAsWritten(nodes, sceneIndex, slots, created, rest + ChildEntriesAsWritten(c, nodes[c].children), fuel - 1)
      else
        WalkRootAsWritten(nodes, sceneIndex, slots[c := Some(SceneNodeRef(sceneIndex, |created|))],
                          created + [SceneNode(c, slots[p])],
                          rest + ChildEntriesAsWritten(c, nodes[c].children), fuel - 1)
  }

  /** A root with two children and no grandchildren, in a first scene. Written as
      parseScene runs it, the second child is pushed under the first, is popped first, and
      its parent's slot is still the null the resize left: the walk dereferences it. With
      the entries read before the pop, both children are pushed under the root. */
  lemma AsWrittenWalkMissesParent()
    ensures var leaf := Node(0, 0, false, false, [], NodeData(""));
      var nodes := [Node(0, 0, false, false, [1, 2], NodeData("")), leaf, leaf];
      && WalkRootAsWritten(nodes, 0, [Some(SceneNodeRef(0, 0)), None, None], [SceneNode(0, None)], [(-1, 0)], 10)
         == NoParentNode(1)
      && ChildEntriesAsWritten(0, nodes[0].children) == [(0, 1), (1, 2)]
      && ChildEntries(0, nodes[0].children) == [(0, 1), (0, 2)]
  {
    var leaf := Node(0, 0, false, false, [], NodeData(""));
    var nodes := [Node(0, 0, false, false, [1, 2], NodeData("")), leaf, leaf];
    var slots := [Some(SceneNodeRef(0, 0)), None, None];
    assert ChildEntriesAsWritten(0, [1, 2]) == [(0, 1), (1, 2)];
    assert ChildEntries(0, [1, 2]) == [(0, 1), (0, 2)];
    var stack: seq<(int, nat)> := [(0, 1), (1, 2)];
    assert [(-1, 0)][..0] + ChildEntriesAsWritten(0, nodes[0].children) == stack;
    assert WalkRootAsWritten(nodes, 0, slots, [SceneNode(0, None)], [(-1, 0)], 10)
        == WalkRootAsWritten(nodes, 0, slots, [SceneNode(0, None)], stack, 9);
  }

  /** One root of parseScene: the root scene node is made and its slot recorded, then
      its descendants are walked. */
  method BuildRoot(nodes: seq<Node>, slots0: seq<Option<SceneNodeRef>>, sceneIndex: nat,
                   slotsIn: seq<Option<SceneNodeRef>>, createdIn: seq<SceneNode>, rootId: nat, stepsIn: nat)
    returns (slots: seq<Option<SceneNodeRef>>, created: seq<SceneNode>, steps: nat, failure: Option<Reason>)
    requires |slots0| == |slotsIn| == |nodes| && rootId < |nodes|
    requires forall k :: 0 <= k < |createdIn| ==> createdIn[k].nodeId < |nodes|
    requires SlotsTrack(slots0, slotsIn, sceneIndex, createdIn) && SceneTree(nodes, sceneIndex, createdIn)
    requires ChildrenBuilt(nodes, createdIn) && ChildrenCounted(nodes, createdIn)
    ensures |slots| == |nodes|
    ensures forall k :: 0 <= k < |created| ==> created[k].nodeId < |nodes|
    ensures SlotsTrack(slots0, slots, sceneIndex, created) && SceneTree(nodes, sceneIndex, created)
    ensures Roots(created) == Roots(createdIn) + [rootId]
    ensures failure.None? ==> ChildrenBuilt(nodes, created) && ChildrenCounted(nodes, created)
    ensures |createdIn| < |created| && steps <= stepsIn && stepsIn - steps <= |created| - |createdIn|
    ensures failure.Some? ==> failure == Some(Exhausted) || (failure.value.IndexOutOfRange? && failure.value.into == Nodes && failure.value.index >= |nodes|)
    ensures failure == Some(Exhausted) ==> steps == 0
    ensures failure.Some? && failure.value.IndexOutOfRange? ==> ChildOfMade(nodes, created, failure.value.index)
  {
    StartRoot(nodes, slots0, sceneIndex, slotsIn, createdIn, rootId);
    RootsAppend(createdIn, SceneNode(rootId, None));
    created := createdIn + [SceneNode(rootId, None)];
    slots := slotsIn[rootId := Some(SceneNodeRef(sceneIndex, |created| - 1))];
    assert created[..|created| - 1] == createdIn;
    slots, created, steps, failure := WalkRoot(nodes, slots0, sceneIndex, slots, created, rootId, stepsIn);
  }

  /** The tree building of parseScene: each root id must be a node; it becomes a root
      scene node, and its descendants are walked (WalkRoot). Any id that is not a node
      refuses the scene. A node reachable from itself makes the source's walk endless;
      here the walk stops after `fuel` steps in all, one per scene node made. */
  method BuildScene(nodes: seq<Node>, slots0: seq<Option<SceneNodeRef>>, sceneIndex: nat, roots: seq<nat>, fuel: nat)
    returns (slots: seq<Option<SceneNodeRef>>, created: seq<SceneNode>, failure: Option<Reason>)
    requires |slots0| == |nodes|
    ensures |slots| == |nodes|
    ensures forall k :: 0 <= k < |created| ==> created[k].nodeId < |nodes|
    ensures SlotsTrack(slots0, slots, sceneIndex, created)
    ensures SceneTree(nodes, sceneIndex, created)
    ensures Roots(created) <= roots
    ensures failure.None? ==> Roots(created) == roots
    ensures failure.None? ==> forall i :: 0 <= i < |roots| ==> roots[i] < |nodes|
    ensures failure.None? ==> SceneClosed(nodes, Scene("", created)) && ChildrenBuilt(nodes, created)
    ensures failure.None? ==> ChildrenCounted(nodes, created)
    ensures failure.Some? ==> BuildFailure(nodes, roots, created, fuel, failure.value)
  {
    slots, created := slots0, [];
    var steps: nat := fuel;
    for r := 0 to |roots|
      invariant steps <= fuel && fuel - steps <= |created|
      invariant |slots| == |nodes|
      invariant forall k :: 0 <= k < |created| ==> created[k].nodeId < |nodes|
      invariant SlotsTrack(slots0, slots, sceneIndex, created)
      invariant SceneTree(nodes, sceneIndex, created)
      invariant Roots(created) == roots[..r]
      invariant ChildrenBuilt(nodes, created) && ChildrenCounted(nodes, created)
    {
      var rootId := roots[r];
      if rootId >= |nodes| {
        assert roots[..r + 1] == roots[..r] + [rootId] && roots[..r + 1] <= roots;
        assert BuildFailure(nodes, roots, created, fuel, IndexOutOfRange(Nodes, rootId));
        return slots, created, Some(IndexOutOfRange(Nodes, rootId));
      }
      assert roots[..r + 1] == roots[..r] + [rootId];
      var f;
      slots, created, steps, f := BuildRoot(nodes, slots0, sceneIndex, slots, created, rootId, steps);
      if f.Some? {
        assert roots[..r + 1] <= roots;
        assert BuildFailure(nodes, roots, created, fuel, f.value);
        return slots, created, f;
      }
    }
    assert roots[..|roots|] == roots;
    RootsAreNodes(created, |nodes|);
    BuiltIsClosed(nodes, created);
    failure := None;
  }

  /** Why BuildScene may refuse a scene, given the scene nodes it made for it: the walk
      used up its `fuel` steps, having made a scene node per step, or it met an id that is
      not a node, either as the next root after those made or as a child of a glTF node
      the walk reached. */
  ghost predicate BuildFailure(nodes: seq<Node>, roots: seq<nat>, created: seq<SceneNode>, fuel: nat, reason: Reason) {
    || (reason == Exhausted && |created| >= fuel)
    || (&& reason.IndexOutOfRange? && reason.into == Nodes && reason.index >= |nodes|
        && (Roots(created) + [reason.index] <= roots || ChildOfMade(nodes, created, reason.index)))
  }

  /** Scene `sceneIndex` with root ids `roots` is refused for `reason` by BuildScene:
      some tree of scene nodes of this scene, under a prefix of the roots, explains it. */
  ghost predicate SceneRefused(nodes: seq<Node>, sceneIndex: nat, roots: seq<nat>, fuel: nat, reason: Reason) {
    exists created: seq<SceneNode> ::
      && (forall k :: 0 <= k < |created| ==> created[k].nodeId < |nodes|)
      && SceneTree(nodes, sceneIndex, created) && Roots(created) <= roots
      && BuildFailure(nodes, roots, created, fuel, reason)
  }

  /** Each scene read is the tree its JSON scene describes: named as in the JSON, with
      the JSON's root nodes in order as its roots, every scene node under a parent of
      this scene that has it as a child, and under every scene node exactly the
      children its glTF node lists, each as often as listed (so every child is made:
      CountedIsBuilt). */
  ghost predicate ScenesBuilt(nodes: seq<Node>, js: seq<JsonScene>, scenes: seq<Scene>) {
    && |scenes| <= |js|
    && forall i :: 0 <= i < |scenes| ==>
      && scenes[i].name == js[i].name.GetOr("")
      && SceneClosed(nodes, scenes[i])
      && SceneTree(nodes, i, scenes[i].nodes)
      && ChildrenCounted(nodes, scenes[i].nodes)
      && Roots(scenes[i].nodes) == Elements(js[i].nodes)
  }

  /** parseScene for each scene in turn: a scene refused by BuildScene stops the
      section and is not added; each added scene is the tree its JSON scene describes. */
  method ParseScenes(nodes: seq<Node>, slots0: seq<Option<SceneNodeRef>>, js: seq<JsonScene>, fuel: nat)
    returns (slots: seq<Option<SceneNodeRef>>, scenes: seq<Scene>, failure: Option<(nat, Reason)>)
    requires |slots0| == |nodes|
    ensures |slots| == |nodes| && |scenes| <= |js|
    ensures ScenesBuilt(nodes, js, scenes)
    ensures failure.None? ==> |scenes| == |js|
    ensures failure.Some? ==>
      && failure.value.0 == |scenes| < |js|
      && (failure.value.1 == Exhausted
          || (failure.value.1.IndexOutOfRange? && failure.value.1.into == Nodes && failure.value.1.index >= |nodes|))
      && SceneRefused(nodes, failure.value.0, Elements(js[failure.value.0].nodes), fuel, failure.value.1)
  {
    slots, scenes := slots0, [];
    for i := 0 to |js|
      invariant |slots| == |nodes| && |scenes| == i
      invariant ScenesBuilt(nodes, js, scenes)
    {
      var created, f;
      slots, created, f := BuildScene(nodes, slots, i, Elements(js[i].nodes), fuel);
      if f.Some? {
        return slots, scenes, Some((i, f.value));
      }
      scenes := scenes + [Scene(js[i].name.GetOr(""), created)];
    }
    failure := None;
  }

  // ---------------------------------------------------------------- the file

  /** Each section's elements, all parsed, to the items at their positions. */
  predicate BuffersRead(js: seq<JsonBuffer>, items: seq<Buffer>, readable: (string, nat) -> bool) {
    |items| == |js| && forall i :: 0 <= i < |js| ==> BufferOf(js[i], readable) == Ok(items[i])
  }

  predicate BufferViewsRead(js: seq<JsonBufferView>, items: seq<BufferView>, bufferCount: nat) {
    |items| == |js| && forall i :: 0 <= i < |js| ==> BufferViewOf(js[i], bufferCount) == Ok(items[i])
  }

  predicate AccessorsRead(js: seq<JsonAccessor>, items: seq<Accessor>, bufferViewCount: nat) {
    |items| == |js| && forall i :: 0 <= i < |js| ==> AccessorOf(js[i], bufferViewCount) == Ok(items[i])
  }

  predicate SamplersRead(js: seq<JsonSampler>, items: seq<Sampler>, defaultFilters: (TextureFilter, TextureFilter), endValue: int) {
    |items| == |js| && forall i :: 0 <= i < |js| ==> SamplerOfAsWritten(js[i], defaultFilters, endValue) == Ok(items[i])
  }

  predicate ElementsRead(js: seq<JsonElement>, count: nat) {
    count == |js| && forall i :: 0 <= i < |js| ==> js[i].parses
  }

  predicate NodesRead(js: seq<JsonNode>, items: seq<Node>, cameraCount: nat, meshCount: nat) {
    |items| == |js| && forall i :: 0 <= i < |js| ==> NodeOf(js[i], cameraCount, meshCount) == Ok(items[i])
  }

  /** The buffers section. */
  method ReadBuffers(js: seq<JsonBuffer>, readable: (string, nat) -> bool) returns (items: seq<Buffer>, failure: Option<(nat, Reason)>)
    ensures failure.None? ==> BuffersRead(js, items, readable)
    ensures failure.Some? ==>
      && failure.value.0 < |js| && BuffersRead(js[..failure.value.0], items, readable)
      && BufferOf(js[failure.value.0], readable) == Err(failure.value.1)
  {
    items, failure := ParseEach(js, j => BufferOf(j, readable));
  }

  /** The bufferViews section: each view names an existing buffer. */
  method ReadBufferViews(js: seq<JsonBufferView>, bufferCount: nat) returns (items: seq<BufferView>, failure: Option<(nat, Reason)>)
    ensures forall i :: 0 <= i < |items| ==> items[i].bufferId < bufferCount
    ensures failure.None? ==> BufferViewsRead(js, items, bufferCount)
    ensures failure.Some? ==>
      && failure.value.0 < |js| && BufferViewsRead(js[..failure.value.0], items, bufferCount)
      && BufferViewOf(js[failure.value.0], bufferCount) == Err(failure.value.1)
  {
    items, failure := ParseEach(js, j => BufferViewOf(j, bufferCount));
  }

  /** The accessors section: each accessor names an existing buffer view. */
  method ReadAccessors(js: seq<JsonAccessor>, bufferViewCount: nat) returns (items: seq<Accessor>, failure: Option<(nat, Reason)>)
    ensures forall i :: 0 <= i < |items| ==> items[i].bufferViewId < bufferViewCount
    ensures failure.None? ==> AccessorsRead(js, items, bufferViewCount)
    ensures failure.Some? ==>
      && failure.value.0 < |js| && AccessorsRead(js[..failure.value.0], items, bufferViewCount)
      && AccessorOf(js[failure.value.0], bufferViewCount) == Err(failure.value.1)
  {
    items, failure := ParseEach(js, j => AccessorOf(j, bufferViewCount));
  }

  /** The samplers section, each sampler parsed as written; `endValue` is what a read
      through the end iterator of wrapS gives. */
  method ReadSamplers(js: seq<JsonSampler>, defaultFilters: (TextureFilter, TextureFilter), endValue: int)
    returns (items: seq<Sampler>, failure: Option<(nat, Reason)>)
    ensures failure.None? ==> SamplersRead(js, items, defaultFilters, endValue)
    ensures failure.Some? ==>
      && failure.value.0 < |js| && SamplersRead(js[..failure.value.0], items, defaultFilters, endValue)
      && SamplerOfAsWritten(js[failure.value.0], defaultFilters, endValue) == Err(failure.value.1)
  {
    items, failure := ParseEach(js, j => SamplerOfAsWritten(j, defaultFilters, endValue));
  }

  /** An images, textures, materials, meshes or cameras section: the number of
      elements read. */
  method ReadElements(js: seq<JsonElement>) returns (count: nat, failure: Option<(nat, Reason)>)
    ensures failure.None? ==> ElementsRead(js, count)
    ensures failure.Some? ==>
      && failure.value.0 < |js| && ElementsRead(js[..failure.value.0], count)
      && !js[failure.value.0].parses && failure.value.1 == ElementRefused
  {
    var items;
    items, failure := ParseEach(js, ElementOf);
    count := |items|;
  }

  /** The nodes section: each camera and mesh a node has exists. */
  method ReadNodes(js: seq<JsonNode>, cameraCount: nat, meshCount: nat) returns (items: seq<Node>, failure: Option<(nat, Reason)>)
    ensures forall i :: 0 <= i < |items| ==>
      && (items[i].hasCamera ==> items[i].cameraId < cameraCount)
      && (items[i].hasMesh ==> items[i].meshId < meshCount)
    ensures failure.None? ==> NodesRead(js, items, cameraCount, meshCount)
    ensures failure.Some? ==>
      && failure.value.0 < |js| && NodesRead(js[..failure.value.0], items, cameraCount, meshCount)
      && NodeOf(js[failure.value.0], cameraCount, meshCount) == Err(failure.value.1)
  {
    items, failure := ParseEach(js, j => NodeOf(j, cameraCount, meshCount));
  }

  /** Every section of the file was read in full: each element parsed to the item at
      its position, and the scene node slots match the nodes. */
  ghost predicate Complete(json: JsonGltf, d: GltfData, readable: (string, nat) -> bool,
                           defaultFilters: (TextureFilter, TextureFilter), endValue: int)
  {
    && BuffersRead(Elements(json.buffers), d.buffers, readable)
    && BufferViewsRead(Elements(json.bufferViews), d.bufferViews, |d.buffers|)
    && AccessorsRead(Elements(json.accessors), d.accessors, |d.bufferViews|)
    && SamplersRead(Elements(json.samplers), d.samplers, defaultFilters, endValue)
    && ElementsRead(Elements(json.images), d.imageCount) && ElementsRead(Elements(json.textures), d.textureCount)
    && ElementsRead(Elements(json.materials), d.materialCount) && ElementsRead(Elements(json.meshes), d.meshCount)
    && ElementsRead(Elements(json.cameras), d.cameraCount)
    && NodesRead(Elements(json.nodes), d.nodes, d.cameraCount, d.meshCount)
    && |d.sceneNodes| == |d.nodes|
    && |d.scenes| == |Elements(json.scenes)|
    && ScenesBuilt(d.nodes, Elements(json.scenes), d.scenes)
  }

  /** Element `index` of `section` is refused for `reason`, judged against the data
      read before it. */
  ghost predicate Refused(json: JsonGltf, d: GltfData, section: Section, index: nat, reason: Reason,
                    readable: (string, nat) -> bool, defaultFilters: (TextureFilter, TextureFilter), endValue: int)
  {
    && reason != TypeError
    && match section
       case Buffers => index < |Elements(json.buffers)| && BufferOf(Elements(json.buffers)[index], readable) == Err(reason)
       case Samplers =>
         index < |Elements(json.samplers)| && SamplerOfAsWritten(Elements(json.samplers)[index], defaultFilters, endValue) == Err(reason)
       case _ => RefusedAt(json, d, section, index, reason)
  }

  /** Parsing element `index` of `section` throws: only an accessor with an unknown
      component type or type does. */
  predicate Throws(json: JsonGltf, d: GltfData, section: Section, index: nat) {
    && section == Accessors && index < |Elements(json.accessors)|
    && AccessorOf(Elements(json.accessors)[index], |d.bufferViews|) == Err(TypeError)
  }

  /** Refused, for the sections whose elements are judged by the data alone. */
  ghost predicate RefusedAt(json: JsonGltf, d: GltfData, section: Section, index: nat, reason: Reason) {
    match section
    case BufferViews =>
      index < |Elements(json.bufferViews)| && BufferViewOf(Elements(json.bufferViews)[index], |d.buffers|) == Err(reason)
    case Accessors =>
      index < |Elements(json.accessors)| && AccessorOf(Elements(json.accessors)[index], |d.bufferViews|) == Err(reason)
    case Images => index < |Elements(json.images)| && !Elements(json.images)[index].parses && reason == ElementRefused
    case Textures => index < |Elements(json.textures)| && !Elements(json.textures)[index].parses && reason == ElementRefused
    case Materials => index < |Elements(json.materials)| && !Elements(json.materials)[index].parses && reason == ElementRefused
    case Meshes => index < |Elements(json.meshes)| && !Elements(json.meshes)[index].parses && reason == ElementRefused
    case Cameras => index < |Elements(json.cameras)| && !Elements(json.cameras)[index].parses && reason == ElementRefused
    case Nodes =>
      index < |Elements(json.nodes)| && NodeOf(Elements(json.nodes)[index], d.cameraCount, d.meshCount) == Err(reason)
    case Scenes =>
      && index < |Elements(json.scenes)|
      && (reason == Exhausted || (reason.IndexOutOfRange? && reason.into == Nodes && reason.index >= |d.nodes|))
    case Buffers => false
    case Samplers => false
  }

  /** The position of a section in the order parseGLTF reads them. */
  function Rank(section: Section): nat {
    match section
    case Buffers => 0
    case BufferViews => 1
    case Accessors => 2
    case Samplers => 3
    case Images => 4
    case Textures => 5
    case Materials => 6
    case Meshes => 7
    case Cameras => 8
    case Nodes => 9
    case Scenes => 10
  }

  /** Stopping at element `index` of `section`: each of the buffers, bufferViews,
      accessors and samplers sections read before it was read in full, and the elements
      of `section` before `index` were read to the items at their positions. */
  predicate BufferSectionsUpTo(json: JsonGltf, d: GltfData, section: Section, index: nat,
                               readable: (string, nat) -> bool, defaultFilters: (TextureFilter, TextureFilter),
                               endValue: int)
  {
    var r := Rank(section);
    && (r > 0 ==> BuffersRead(Elements(json.buffers), d.buffers, readable))
    && (r == 0 ==> index <= |Elements(json.buffers)| && BuffersRead(Elements(json.buffers)[..index], d.buffers, readable))
    && (r > 1 ==> BufferViewsRead(Elements(json.bufferViews), d.bufferViews, |d.buffers|))
    && (r == 1 ==>
          index <= |Elements(json.bufferViews)| && BufferViewsRead(Elements(json.bufferViews)[..index], d.bufferViews, |d.buffers|))
    && (r > 2 ==> AccessorsRead(Elements(json.accessors), d.accessors, |d.bufferViews|))
    && (r == 2 ==>
          index <= |Elements(json.accessors)| && AccessorsRead(Elements(json.accessors)[..index], d.accessors, |d.bufferViews|))
    && (r > 3 ==> SamplersRead(Elements(json.samplers), d.samplers, defaultFilters, endValue))
    && (r == 3 ==>
          index <= |Elements(json.samplers)|
          && SamplersRead(Elements(json.samplers)[..index], d.samplers, defaultFilters, endValue))
  }

  /** The same for the images, textures, materials, meshes and cameras sections. */
  predicate CountedSectionsUpTo(json: JsonGltf, d: GltfData, section: Section, index: nat) {
    var r := Rank(section);
    && (r > 4 ==> ElementsRead(Elements(json.images), d.imageCount))
    && (r == 4 ==> index <= |Elements(json.images)| && ElementsRead(Elements(json.images)[..index], d.imageCount))
    && (r > 5 ==> ElementsRead(Elements(json.textures), d.textureCount))
    && (r == 5 ==> index <= |Elements(json.textures)| && ElementsRead(Elements(json.textures)[..index], d.textureCount))
    && (r > 6 ==> ElementsRead(Elements(json.materials), d.materialCount))
    && (r == 6 ==> index <= |Elements(json.materials)| && ElementsRead(Elements(json.materials)[..index], d.materialCount))
    && (r > 7 ==> ElementsRead(Elements(json.meshes), d.meshCount))
    && (r == 7 ==> index <= |Elements(json.meshes)| && ElementsRead(Elements(json.meshes)[..index], d.meshCount))
    && (r > 8 ==> ElementsRead(Elements(json.cameras), d.cameraCount))
    && (r == 8 ==> index <= |Elements(json.cameras)| && ElementsRead(Elements(json.cameras)[..index], d.cameraCount))
  }

  /** The same for the nodes and scenes sections; the scenes before `index` are the
      trees their JSON scenes describe. */
  ghost predicate NodeSectionsUpTo(json: JsonGltf, d: GltfData, section: Section, index: nat) {
    var r := Rank(section);
    && (r > 9 ==> NodesRead(Elements(json.nodes), d.nodes, d.cameraCount, d.meshCount) && |d.sceneNodes| == |d.nodes|)
    && (r == 9 ==>
          index <= |Elements(json.nodes)| && NodesRead(Elements(json.nodes)[..index], d.nodes, d.cameraCount, d.meshCount))
    && (r == 10 ==> index == |d.scenes| && ScenesBuilt(d.nodes, Elements(json.scenes), d.scenes))
  }

  /** What parseGLTF has read when it stops at element `index` of `section`: every
      earlier section in full, and the elements of `section` before `index`. */
  ghost predicate ReadUpTo(json: JsonGltf, d: GltfData, section: Section, index: nat,
                           readable: (string, nat) -> bool, defaultFilters: (TextureFilter, TextureFilter), endValue: int)
  {
    && BufferSectionsUpTo(json, d, section, index, readable, defaultFilters, endValue)
    && CountedSectionsUpTo(json, d, section, index)
    && NodeSectionsUpTo(json, d, section, index)
  }

  /** The buffers, bufferViews, accessors and samplers sections of parseGLTF. */
  method ReadBufferSections(json: JsonGltf, readable: (string, nat) -> bool, defaultFilters: (TextureFilter, TextureFilter),
                            endValue: int)
    returns (d: GltfData, failure: Option<Failure>)
    ensures d == EmptyData.(buffers := d.buffers, bufferViews := d.bufferViews, accessors := d.accessors, samplers := d.samplers)
    ensures Consistent(d)
    ensures failure.None? ==>
      && BuffersRead(Elements(json.buffers), d.buffers, readable)
      && BufferViewsRead(Elements(json.bufferViews), d.bufferViews, |d.buffers|)
      && AccessorsRead(Elements(json.accessors), d.accessors, |d.bufferViews|)
      && SamplersRead(Elements(json.samplers), d.samplers, defaultFilters, endValue)
    ensures failure.Some? ==>
      || (&& failure.value.SectionFailed? && failure.value.section in {Buffers, BufferViews, Accessors, Samplers}
          && Refused(json, d, failure.value.section, failure.value.index, failure.value.reason, readable, defaultFilters, endValue))
      || (failure.value.Threw? && Throws(json, d, failure.value.section, failure.value.index))
    ensures failure.Some? ==>
      BufferSectionsUpTo(json, d, failure.value.section, failure.value.index, readable, defaultFilters, endValue)
  {
    var buffers, bufferViews, accessors, samplers := [], [], [], [];
    var f;
    buffers, f := ReadBuffers(Elements(json.buffers), readable);
    if f.Some? {
      return EmptyData.(buffers := buffers), Some(SectionFailed(Buffers, f.value.0, f.value.1));
    }
    bufferViews, f := ReadBufferViews(Elements(json.bufferViews), |buffers|);
    if f.Some? {
      return EmptyData.(buffers := buffers, bufferViews := bufferViews), Some(SectionFailed(BufferViews, f.value.0, f.value.1));
    }
    accessors, f := ReadAccessors(Elements(json.accessors), |bufferViews|);
    d := EmptyData.(buffers := buffers, bufferViews := bufferViews, accessors := accessors);
    if f.Some? {
      if f.value.1 == TypeError {
        return d, Some(Threw(Accessors, f.value.0));
      }
      return d, Some(SectionFailed(Accessors, f.value.0, f.value.1));
    }
    samplers, f := ReadSamplers(Elements(json.samplers), defaultFilters, endValue);
    d := d.(samplers := samplers);
    if f.Some? {
      return d, Some(SectionFailed(Samplers, f.value.0, f.value.1));
    }
    failure := None;
  }

  /** The images, textures, materials, meshes and cameras sections of parseGLTF. */
  method ReadCountedSections(json: JsonGltf, d0: GltfData) returns (d: GltfData, failure: Option<Failure>)
    ensures d == d0.(imageCount := d.imageCount, textureCount := d.textureCount, materialCount := d.materialCount,
                     meshCount := d.meshCount, cameraCount := d.cameraCount)
    ensures failure.None? ==>
      && ElementsRead(Elements(json.images), d.imageCount) && ElementsRead(Elements(json.textures), d.textureCount)
      && ElementsRead(Elements(json.materials), d.materialCount) && ElementsRead(Elements(json.meshes), d.meshCount)
      && ElementsRead(Elements(json.cameras), d.cameraCount)
    ensures failure.Some? ==>
      && failure.value.SectionFailed? && failure.value.section in {Images, Textures, Materials, Meshes, Cameras}
      && RefusedAt(json, d, failure.value.section, failure.value.index, failure.value.reason)
      && CountedSectionsUpTo(json, d, failure.value.section, failure.value.index)
  {
    var images, textures, materials, meshes, cameras := 0, 0, 0, 0, 0;
    var f;
    images, f := ReadElements(Elements(json.images));
    if f.Some? {
      return d0.(imageCount := images), Some(SectionFailed(Images, f.value.0, f.value.1));
    }
    textures, f := ReadElements(Elements(json.textures));
    if f.Some? {
      return d0.(imageCount := images, textureCount := textures), Some(SectionFailed(Textures, f.value.0, f.value.1));
    }
    materials, f := ReadElements(Elements(json.materials));
    d := d0.(imageCount := images, textureCount := textures, materialCount := materials);
    if f.Some? {
      return d, Some(SectionFailed(Materials, f.value.0, f.value.1));
    }
    meshes, f := ReadElements(Elements(json.meshes));
    d := d.(meshCount := meshes);
    if f.Some? {
      return d, Some(SectionFailed(Meshes, f.value.0, f.value.1));
    }
    cameras, f := ReadElements(Elements(json.cameras));
    d := d.(cameraCount := cameras);
    if f.Some? {
      return d, Some(SectionFailed(Cameras, f.value.0, f.value.1));
    }
    failure := None;
  }

  /** The nodes and scenes sections of parseGLTF; the scene node slots are sized to
      the nodes when there is a nodes section. */
  method ReadNodeSections(json: JsonGltf, d0: GltfData, fuel: nat) returns (d: GltfData, failure: Option<Failure>)
    requires d0.nodes == [] && d0.sceneNodes == [] && d0.scenes == []
    ensures d == d0.(nodes := d.nodes, sceneNodes := d.sceneNodes, scenes := d.scenes)
    ensures forall i :: 0 <= i < |d.nodes| ==>
      && (d.nodes[i].hasCamera ==> d.nodes[i].cameraId < d.cameraCount)
      && (d.nodes[i].hasMesh ==> d.nodes[i].meshId < d.meshCount)
    ensures forall i :: 0 <= i < |d.scenes| ==> SceneClosed(d.nodes, d.scenes[i])
    ensures ScenesBuilt(d.nodes, Elements(json.scenes), d.scenes)
    ensures failure.None? ==>
      && NodesRead(Elements(json.nodes), d.nodes, d.cameraCount, d.meshCount)
      && |d.sceneNodes| == |d.nodes| && |d.scenes| == |Elements(json.scenes)|
    ensures failure.Some? ==>
      && failure.value.SectionFailed? && failure.value.section in {Nodes, Scenes}
      && RefusedAt(json, d, failure.value.section, failure.value.index, failure.value.reason)
      && NodeSectionsUpTo(json, d, failure.value.section, failure.value.index)
    ensures failure.Some? && failure.value.section == Scenes ==>
      && failure.value.index < |Elements(json.scenes)|
      && SceneRefused(d.nodes, failure.value.index, Elements(Elements(json.scenes)[failure.value.index].nodes), fuel,
                      failure.value.reason)
  {
    var nodes, f := ReadNodes(Elements(json.nodes), d0.cameraCount, d0.meshCount);
    if f.Some? {
      return d0.(nodes := nodes), Some(SectionFailed(Nodes, f.value.0, f.value.1));
    }
    var slots: seq<Option<SceneNodeRef>> := [];
    if json.nodes.Some? {
      slots := seq(|nodes|, _ => None);
    }
    var scenes;
    slots, scenes, f := ParseScenes(nodes, slots, Elements(json.scenes), fuel);
    d := d0.(nodes := nodes, sceneNodes := slots, scenes := scenes);
    if f.Some? {
      return d, Some(SectionFailed(Scenes, f.value.0, f.value.1));
    }
    failure := None;
  }

  /** The sections of parseGLTF, read in order once the asset was accepted: the first
      element refused stops the load with its section, position and reason, while an
      accessor whose parse throws ends it with `Threw`. */
  method ReadSections(json: JsonGltf, readable: (string, nat) -> bool,
                      defaultFilters: (TextureFilter, TextureFilter), endValue: int, fuel: nat)
    returns (data: GltfData, failure: Option<Failure>)
    ensures Consistent(data)
    ensures failure.Some? ==> failure.value.SectionFailed? || failure.value.Threw?
    ensures failure.None? ==> Complete(json, data, readable, defaultFilters, endValue)
    ensures failure.Some? && failure.value.SectionFailed? ==>
      Refused(json, data, failure.value.section, failure.value.index, failure.value.reason, readable, defaultFilters, endValue)
    ensures failure.Some? && failure.value.Threw? ==> Throws(json, data, failure.value.section, failure.value.index)
    ensures failure.Some? ==>
      ReadUpTo(json, data, failure.value.section, failure.value.index, readable, defaultFilters, endValue)
    ensures failure.Some? && failure.value.SectionFailed? && failure.value.section == Scenes ==>
      && failure.value.index < |Elements(json.scenes)|
      && SceneRefused(data.nodes, failure.value.index, Elements(Elements(json.scenes)[failure.value.index].nodes), fuel,
                      failure.value.reason)
  {
    data, failure := ReadBufferSections(json, readable, defaultFilters, endValue);
    if failure.Some? {
      LaterSectionsUntouched(json, data, failure.value.section, failure.value.index);
      return;
    }
    ghost var buffered := data;
    data, failure := ReadCountedSections(json, data);
    if failure.Some? {
      BufferSectionsDone(json, buffered, data, failure.value.section, failure.value.index, readable, defaultFilters, endValue);
      LaterSectionsUntouched(json, data, failure.value.section, failure.value.index);
      return;
    }
    ghost var counted := data;
    data, failure := ReadNodeSections(json, data, fuel);
    if failure.Some? {
      BufferSectionsDone(json, buffered, data, failure.value.section, failure.value.index, readable, defaultFilters, endValue);
      CountedSectionsDone(json, counted, data, failure.value.section, failure.value.index);
    }
  }

  /** parseGLTF, on the data load() has just reset: the asset is required and its
      version must be supported; then the sections are read in order, and the first
      element refused stops the load with its section, position and reason, while an
      accessor whose parse throws ends it with `Threw`. Whatever was read, every index
      held in the data names an existing element. */
  method ParseGltf(json: JsonGltf, version: int, revision: int, readable: (string, nat) -> bool,
                   defaultFilters: (TextureFilter, TextureFilter), endValue: int, fuel: nat)
    returns (data: GltfData, failure: Option<Failure>)
    ensures Consistent(data)
    ensures failure == Some(MissingAsset) <==> json.asset.None?
    ensures failure == Some(UnsupportedVersion) <==> json.asset.Some? && !CheckAssetVersion(json.asset.value, version, revision)
    ensures failure.None? ==> Complete(json, data, readable, defaultFilters, endValue)
    ensures failure.Some? && failure.value.SectionFailed? ==>
      Refused(json, data, failure.value.section, failure.value.index, failure.value.reason, readable, defaultFilters, endValue)
    ensures failure.Some? && failure.value.Threw? ==> Throws(json, data, failure.value.section, failure.value.index)
    ensures failure.Some? && (failure.value.SectionFailed? || failure.value.Threw?) ==>
      ReadUpTo(json, data, failure.value.section, failure.value.index, readable, defaultFilters, endValue)
    ensures failure.Some? && failure.value.SectionFailed? && failure.value.section == Scenes ==>
      && failure.value.index < |Elements(json.scenes)|
      && SceneRefused(data.nodes, failure.value.index, Elements(Elements(json.scenes)[failure.value.index].nodes), fuel,
                      failure.value.reason)
  {
    if json.asset.None? {
      return EmptyData, Some(MissingAsset);
    }
    if !CheckAssetVersion(json.asset.value, version, revision) {
      return EmptyData, Some(UnsupportedVersion);
    }
    data, failure := ReadSections(json, readable, defaultFilters, endValue, fuel);
  }

  /** Sections after the one that stopped the load constrain nothing. */
  lemma LaterSectionsUntouched(json: JsonGltf, d: GltfData, section: Section, index: nat)
    ensures Rank(section) < 4 ==> CountedSectionsUpTo(json, d, section, index)
    ensures Rank(section) < 9 ==> NodeSectionsUpTo(json, d, section, index)
  {
  }

  /** Buffer sections read in full stay read while later sections are parsed. */
  lemma BufferSectionsDone(json: JsonGltf, d0: GltfData, d: GltfData, section: Section, index: nat,
                           readable: (string, nat) -> bool, defaultFilters: (TextureFilter, TextureFilter),
                           endValue: int)
    requires Rank(section) >= 4
    requires BuffersRead(Elements(json.buffers), d0.buffers, readable)
    requires BufferViewsRead(Elements(json.bufferViews), d0.bufferViews, |d0.buffers|)
    requires AccessorsRead(Elements(json.accessors), d0.accessors, |d0.bufferViews|)
    requires SamplersRead(Elements(json.samplers), d0.samplers, defaultFilters, endValue)
    requires d.buffers == d0.buffers && d.bufferViews == d0.bufferViews
    requires d.accessors == d0.accessors && d.samplers == d0.samplers
    ensures BufferSectionsUpTo(json, d, section, index, readable, defaultFilters, endValue)
  {
  }

  /** Counted sections read in full stay read while the nodes and scenes are parsed. */
  lemma CountedSectionsDone(json: JsonGltf, d0: GltfData, d: GltfData, section: Section, index: nat)
    requires Rank(section) >= 9
    requires ElementsRead(Elements(json.images), d0.imageCount) && ElementsRead(Elements(json.textures), d0.textureCount)
    requires ElementsRead(Elements(json.materials), d0.materialCount) && ElementsRead(Elements(json.meshes), d0.meshCount)
    requires ElementsRead(Elements(json.cameras), d0.cameraCount)
    requires d.imageCount == d0.imageCount && d.textureCount == d0.textureCount
    requires d.materialCount == d0.materialCount && d.meshCount == d0.meshCount && d.cameraCount == d0.cameraCount
    ensures CountedSectionsUpTo(json, d, section, index)
  {
  }
}
