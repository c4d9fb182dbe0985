/** The code tables and the asset version check of the glTF 2.0 reader
    (sombra-engine GLTFReader.cpp): each table turns a glTF code or name into the
    engine's enumeration, and refuses every other input. The tables follow glTF 2.0:
    accessor component types (section 3.6.2), sampler filters and wraps (section 5.26),
    accessor types (section 5.1) and material alpha modes (section 5.19). */
module GltfTables {
  import opened Wrappers

  // ---------------------------------------------------------------- component types

  datatype TypeId = Byte | UnsignedByte | Short | UnsignedShort | UnsignedInt | Float

  /** The glTF code of a component type. */
  function TypeIdCode(t: TypeId): (code: int)
    ensures ToTypeId(code) == Some(t)
  {
    match t
    case Byte => 5120
    case UnsignedByte => 5121
    case Short => 5122
    case UnsignedShort => 5123
    case UnsignedInt => 5125
    case Float => 5126
  }

  /** toTypeId: the six accessor component types; 5124 (a signed int) is not one. */
  function ToTypeId(code: int): (r: Option<TypeId>)
    ensures r.Some? <==> code in {5120, 5121, 5122, 5123, 5125, 5126}
  {
    if code == 5120 then Some(Byte)
    else if code == 5121 then Some(UnsignedByte)
    else if code == 5122 then Some(Short)
    else if code == 5123 then Some(UnsignedShort)
    else if code == 5125 then Some(UnsignedInt)
    else if code == 5126 then Some(Float)
    else None
  }

  /** Only its own code maps to a component type. */
  lemma ToTypeIdOnlyFromCode(code: int)
    requires ToTypeId(code).Some?
    ensures TypeIdCode(ToTypeId(code).value) == code
  {
  }

  // ---------------------------------------------------------------- texture filters

  datatype TextureFilter =
    Nearest | Linear | NearestMipMapNearest | LinearMipMapNearest | NearestMipMapLinear | LinearMipMapLinear

  /** The glTF (OpenGL) code of a filter. */
  function TextureFilterCode(f: TextureFilter): (code: int)
    ensures ToTextureFilter(code) == Some(f)
  {
    match f
    case Nearest => 9728
    case Linear => 9729
    case NearestMipMapNearest => 9984
    case LinearMipMapNearest => 9985
    case NearestMipMapLinear => 9986
    case LinearMipMapLinear => 9987
  }

  /** toTextureFilter: 9728, 9729 and 9984 to 9987. */
  function ToTextureFilter(code: int): (r: Option<TextureFilter>)
    ensures r.Some? <==> code == 9728 || code == 9729 || 9984 <= code <= 9987
  {
    if code == 9728 then Some(Nearest)
    else if code == 9729 then Some(Linear)
    else if code == 9984 then Some(NearestMipMapNearest)
    else if code == 9985 then Some(LinearMipMapNearest)
    else if code == 9986 then Some(NearestMipMapLinear)
    else if code == 9987 then Some(LinearMipMapLinear)
    else None
  }

  /** Only its own code maps to a filter. */
  lemma ToTextureFilterOnlyFromCode(code: int)
    requires ToTextureFilter(code).Some?
    ensures TextureFilterCode(ToTextureFilter(code).value) == code
  {
  }

  // ---------------------------------------------------------------- texture wraps

  datatype TextureWrap = Repeat | MirroredRepeat | ClampToEdge

  /** The glTF (OpenGL) code of a wrap mode. */
  function TextureWrapCode(w: TextureWrap): (code: int)
    ensures ToTextureWrap(code) == Some(w)
  {
    match w
    case Repeat => 10497
    case MirroredRepeat => 33648
    case ClampToEdge => 33071
  }

  /** toTextureWrap: 10497, 33648 and 33071. */
  function ToTextureWrap(code: int): (r: Option<TextureWrap>)
    ensures r.Some? <==> code in {10497, 33648, 33071}
  {
    if code == 10497 then Some(Repeat)
    else if code == 33648 then Some(MirroredRepeat)
    else if code == 33071 then Some(ClampToEdge)
    else None
  }

  /** Only its own code maps to a wrap mode. */
  lemma ToTextureWrapOnlyFromCode(code: int)
    requires ToTextureWrap(code).Some?
    ensures TextureWrapCode(ToTextureWrap(code).value) == code
  {
  }

  // ---------------------------------------------------------------- mesh attributes

  datatype MeshAttribute =
    PositionAttribute | NormalAttribute | TangentAttribute | TexCoordAttribute0
    | TexCoordAttribute1 | ColorAttribute | JointIndexAttribute | JointWeightAttribute

  /** The glTF attribute name of a mesh attribute. */
  function MeshAttributeName(a: MeshAttribute): (name: string)
    ensures ToMeshAttribute(name) == Some(a)
  {
    match a
    case PositionAttribute => "POSITION"
    case NormalAttribute => "NORMAL"
    case TangentAttribute => "TANGENT"
    case TexCoordAttribute0 => "TEXCOORD_0"
    case TexCoordAttribute1 => "TEXCOORD_1"
    case ColorAttribute => "COLOR_0"
    case JointIndexAttribute => "JOINTS_0"
    case JointWeightAttribute => "WEIGHTS_0"
  }

  /** toMeshAttribute: the eight attribute names the engine binds; the names are
      compared exactly, so "TEXCOORD_2" or "position" are refused. */
  function ToMeshAttribute(text: string): (r: Option<MeshAttribute>)
    ensures r.Some? <==> text in {"POSITION", "NORMAL", "TANGENT", "TEXCOORD_0", "TEXCOORD_1", "COLOR_0", "JOINTS_0", "WEIGHTS_0"}
  {
    if text == "POSITION" then Some(PositionAttribute)
    else if text == "NORMAL" then Some(NormalAttribute)
    else if text == "TANGENT" then Some(TangentAttribute)
    else if text == "TEXCOORD_0" then Some(TexCoordAttribute0)
    else if text == "TEXCOORD_1" then Some(TexCoordAttribute1)
    else if text == "COLOR_0" then Some(ColorAttribute)
    else if text == "JOINTS_0" then Some(JointIndexAttribute)
    else if text == "WEIGHTS_0" then Some(JointWeightAttribute)
    else None
  }

  /** Only its own name maps to a mesh attribute. */
  lemma ToMeshAttributeOnlyFromName(text: string)
    requires ToMeshAttribute(text).Some?
    ensures MeshAttributeName(ToMeshAttribute(text).value) == text
  {
  }

  // ---------------------------------------------------------------- accessor types

  /** toComponentSize: the number of components of an accessor type. */
  function ToComponentSize(text: string): (r: Option<nat>)
    ensures r.Some? <==> text in {"SCALAR", "VEC2", "VEC3", "VEC4", "MAT2", "MAT3", "MAT4"}
    ensures r.Some? ==> r.value in {1, 2, 3, 4, 9, 16}
  {
    if text == "SCALAR" then Some(1)
    else if text == "VEC2" then Some(2)
    else if text == "VEC3" then Some(3)
    else if text == "VEC4" then Some(4)
    else if text == "MAT2" then Some(4)
    else if text == "MAT3" then Some(9)
    else if text == "MAT4" then Some(16)
    else None
  }

  /** A vector type of n components has size n, a matrix type of n columns n * n. */
  lemma ComponentSizeOfShape(n: nat)
    requires 2 <= n <= 4
    ensures var digit := ['0' + n as char];
      && ToComponentSize("VEC" + digit) == Some(n)
      && ToComponentSize("MAT" + digit) == Some(n * n)
  {
    var digit := ['0' + n as char];
    if n == 2 {
      assert "VEC" + digit == "VEC2" && "MAT" + digit == "MAT2";
    } else if n == 3 {
      assert "VEC" + digit == "VEC3" && "MAT" + digit == "MAT3";
    } else {
      assert "VEC" + digit == "VEC4" && "MAT" + digit == "MAT4";
    }
  }

  /** Two different accessor types share a size only when they are VEC4 and MAT2. */
  lemma ComponentSizeShared(a: string, b: string)
    requires ToComponentSize(a).Some? && ToComponentSize(a) == ToComponentSize(b) && a != b
    ensures {a, b} == {"VEC4", "MAT2"}
  {
  }

  // ---------------------------------------------------------------- alpha modes

  datatype AlphaMode = Opaque | Mask | Blend

  /** The glTF name of an alpha mode. */
  function AlphaModeName(m: AlphaMode): (name: string)
    ensures ToAlphaMode(name) == Some(m)
  {
    match m
    case Opaque => "OPAQUE"
    case Mask => "MASK"
    case Blend => "BLEND"
  }

  /** toAlphaMode: OPAQUE, MASK and BLEND. */
  function ToAlphaMode(text: string): (r: Option<AlphaMode>)
    ensures r.Some? <==> text in {"OPAQUE", "MASK", "BLEND"}
  {
    if text == "OPAQUE" then Some(Opaque)
    else if text == "MASK" then Some(Mask)
    else if text == "BLEND" then Some(Blend)
    else None
  }

  /** Only its own name maps to an alpha mode. */
  lemma ToAlphaModeOnlyFromName(text: string)
    requires ToAlphaMode(text).Some?
    ensures AlphaModeName(ToAlphaMode(text).value) == text
  {
  }

  // ---------------------------------------------------------------- asset version

  predicate IsDigit(c: char) {
    '0' <= c <= '9'
  }

  predicate AllDigits(s: string) {
    forall i :: 0 <= i < |s| ==> IsDigit(s[i])
  }

  /** The length of the run of decimal digits that starts `s`. */
  function LeadingDigits(s: string): (n: nat)
    ensures n <= |s| && AllDigits(s[..n])
    ensures n < |s| ==> !IsDigit(s[n])
  {
    if s == [] || !IsDigit(s[0]) then 0
    else
      var n := 1 + LeadingDigits(s[1..]);
      assert s[..n] == [s[0]] + s[1..][..n - 1];
      n
  }

  /** The number a run of decimal digits denotes; the empty run denotes 0. */
  function DecimalValue(digits: string): nat
    requires AllDigits(digits)
  {
    if digits == [] then 0
    else DecimalValue(digits[..|digits| - 1]) * 10 + (digits[|digits| - 1] - '0') as nat
  }

  /** The decimal text of a natural number. */
  function Decimal(n: nat): (s: string)
    ensures |s| > 0 && AllDigits(s) && DecimalValue(s) == n
  {
    var last := ['0' + (n % 10) as char];
    if n < 10 then last
    else
      var s := Decimal(n / 10) + last;
      assert s[..|s| - 1] == Decimal(n / 10);
      s
  }

  /** The characters `operator>>` skips before a field: space, tab, newline, vertical
      tab, form feed and carriage return. */
  predicate IsSpace(c: char) {
    c == ' ' || c == '\t' || c == '\n' || c == '\U{000B}' || c == '\U{000C}' || c == '\r'
  }

  /** The length of the run of white space that starts `s`. */
  function LeadingSpaces(s: string): (n: nat)
    ensures n <= |s| && forall i :: 0 <= i < n ==> IsSpace(s[i])
    ensures n < |s| ==> !IsSpace(s[n])
  {
    if s == [] || !IsSpace(s[0]) then 0 else 1 + LeadingSpaces(s[1..])
  }

  /** What `stream >> version >> dot >> revision` leaves in its three variables for a
      version text. Each extraction first skips white space. The version is the digit
      run found there; when there is none the stream fails and neither the dot nor the
      revision is written. The dot is the next character, unwritten when the text ends
      before it. The revision is the digit run after the dot: unwritten (None) when the
      text ends after the dot and its white space, and 0 when a character other than a
      digit comes first, as a failed number extraction stores 0. */
  datatype VersionFields = VersionFields(version: int, dot: Option<char>, revision: Option<int>)

  function ReadVersion(text: string): VersionFields {
    var t := text[LeadingSpaces(text)..];
    var n := LeadingDigits(t);
    if n == 0 then VersionFields(0, None, None)
    else
      var afterVersion := t[n..];
      var s := LeadingSpaces(afterVersion);
      if s == |afterVersion| then VersionFields(DecimalValue(t[..n]), None, None)
      else
        var rest := afterVersion[s + 1..];
        var r := rest[LeadingSpaces(rest)..];
        if r == [] then VersionFields(DecimalValue(t[..n]), Some(afterVersion[s]), None)
        else VersionFields(DecimalValue(t[..n]), Some(afterVersion[s]), Some(DecimalValue(r[..LeadingDigits(r)])))
  }

  /** The glTF "asset" object, as far as the reader looks at it. */
  datatype JsonAsset = JsonAsset(version: Option<string>)

  /** checkAssetVersion: the asset's "version" reads as V.R and V.R is not newer than
      version.revision. */
  function CheckAssetVersion(asset: JsonAsset, version: int, revision: int): (valid: bool)
    ensures valid ==> asset.version.Some? && ReadVersion(asset.version.value).dot == Some('.')
  {
    match asset.version
    case None => false
    case Some(text) =>
      var fields := ReadVersion(text);
      && fields.dot == Some('.')
      && (fields.version < version || (fields.version == version && fields.revision.Some? && fields.revision.value <= revision))
  }

  lemma {:induction false} LeadingDigitsOfDecimal(d: string, rest: string)
    requires |d| > 0 && AllDigits(d)
    requires rest == [] || !IsDigit(rest[0])
    ensures LeadingDigits(d + rest) == |d| && (d + rest)[..|d|] == d
  {
    if |d| > 1 {
      assert (d + rest)[1..] == d[1..] + rest;
      LeadingDigitsOfDecimal(d[1..], rest);
    } else {
      assert (d + rest)[1..] == rest;
    }
  }

  /** A run of digits starts with no white space. */
  lemma NoLeadingSpaces(d: string, rest: string)
    requires |d| > 0 && AllDigits(d)
    ensures LeadingSpaces(d + rest) == 0
  {
    assert (d + rest)[0] == d[0];
  }

  /** Two runs of digits joined by '.' read back as their values and the '.'. */
  lemma VersionFieldsOfText(dv: string, dr: string)
    requires |dv| > 0 && AllDigits(dv) && |dr| > 0 && AllDigits(dr)
    ensures ReadVersion(dv + "." + dr) == VersionFields(DecimalValue(dv), Some('.'), Some(DecimalValue(dr)))
  {
    var text := dv + "." + dr;
    assert text == dv + ("." + dr);
    NoLeadingSpaces(dv, "." + dr);
    assert text[0..] == text;
    LeadingDigitsOfDecimal(dv, "." + dr);
    var afterVersion := text[|dv|..];
    assert afterVersion == "." + dr;
    assert LeadingSpaces(afterVersion) == 0;
    var rest := afterVersion[1..];
    assert rest == dr + [];
    NoLeadingSpaces(dr, []);
    assert rest[0..] == rest;
    LeadingDigitsOfDecimal(dr, []);
  }

  /** The text "V.R" of two natural numbers reads back as V, '.' and R. */
  lemma VersionTextRoundTrip(v: nat, r: nat)
    ensures ReadVersion(Decimal(v) + "." + Decimal(r)) == VersionFields(v, Some('.'), Some(r))
  {
    VersionFieldsOfText(Decimal(v), Decimal(r));
  }

  /** A reader of version.revision supports the asset "V.R" exactly when V.R is not
      newer, comparing the major numbers first. */
  lemma CheckAssetVersionOfText(v: nat, r: nat, version: int, revision: int)
    ensures CheckAssetVersion(JsonAsset(Some(Decimal(v) + "." + Decimal(r))), version, revision)
      <==> v < version || (v == version && r <= revision)
  {
    VersionTextRoundTrip(v, r);
  }

  /** A version without its ".R" part, such as "2", is refused: the dot the extraction
      never wrote is read as no dot (in the source it keeps its uninitialised value). */
  lemma {:induction false} MajorAloneUnsupported(v: nat, version: int, revision: int)
    ensures !CheckAssetVersion(JsonAsset(Some(Decimal(v))), version, revision)
  {
    NoLeadingSpaces(Decimal(v), []);
    assert Decimal(v) + [] == Decimal(v);
    assert Decimal(v)[0..] == Decimal(v);
    LeadingDigitsOfDecimal(Decimal(v), []);
    assert Decimal(v)[|Decimal(v)|..] == [];
  }

  /** A version that ends right after its dot, such as "2.", leaves the revision
      unwritten: it is supported only when its major number is older than the reader's,
      where the source never looks at the revision (in the source an equal major number
      compares the uninitialised revision). */
  lemma {:induction false} DotWithoutRevision(v: nat, version: int, revision: int)
    ensures ReadVersion(Decimal(v) + ".") == VersionFields(v, Some('.'), None)
    ensures CheckAssetVersion(JsonAsset(Some(Decimal(v) + ".")), version, revision) <==> v < version
  {
    var text := Decimal(v) + ".";
    NoLeadingSpaces(Decimal(v), ".");
    assert text[0..] == text;
    LeadingDigitsOfDecimal(Decimal(v), ".");
    var afterVersion := text[|Decimal(v)|..];
    assert afterVersion == ".";
    assert LeadingSpaces(afterVersion) == 0;
    assert afterVersion[1..] == [];
  }

  /** A newer reader accepts every asset an older one accepts. */
  lemma CheckAssetVersionMonotone(asset: JsonAsset, version: int, revision: int, version': int, revision': int)
    requires version < version' || (version == version' && revision <= revision')
    requires CheckAssetVersion(asset, version, revision)
    ensures CheckAssetVersion(asset, version', revision')
  {
  }
}
