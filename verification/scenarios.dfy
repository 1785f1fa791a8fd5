/** Concrete registries and the outcome of inspecting them. */
module Scenarios {
  import opened Results
  import opened Strings
  import opened Naming
  import opened Descriptor
  import opened Catalog
  import opened Inspector
  import opened Driver

  // ---------------------------------------------------------------------------
  // Canonical names of the sample elements
  // ---------------------------------------------------------------------------

  lemma NotVkPrefixed(name: string)
    requires |name| > 0 && name[0] != 'V'
    ensures !StartsWith(name, VkPrefix)
  {
    if |name| >= 2 {
      assert name[..2][0] != VkPrefix[0];
    }
  }

  lemma NotScalarSuffixed(name: string)
    requires |name| > 0 && name[|name| - 1] != 't'
    ensures !EndsWith(name, BasicSuffix)
  {
    if |name| >= 2 {
      assert name[|name| - 2..][1] != BasicSuffix[1];
    }
  }

  /** A `Vk`-prefixed name absent from the table loses its prefix. */
  lemma PrefixedName(translations: map<string, string>, name: string, stem: string)
    requires name !in translations
    requires name == VkPrefix + stem && !EndsWithVendorToken(stem)
    ensures GetTypeCsName(translations, name) == Ok(stem)
  {
    assert name[..2] == VkPrefix;
    assert name[2..] == stem;
  }

  lemma Uint32Name(translations: map<string, string>)
    requires "uint32_t" !in translations
    ensures GetTypeCsName(translations, "uint32_t") == Ok("UInt32")
  {
    NotVkPrefixed("uint32_t");
    assert "uint32_t"[6..] == BasicSuffix;
  }

  lemma Int32Name(translations: map<string, string>)
    requires "int32_t" !in translations
    ensures GetTypeCsName(translations, "int32_t") == Ok("Int32")
  {
    NotVkPrefixed("int32_t");
    assert "int32_t"[5..] == BasicSuffix;
  }

  lemma VoidName(translations: map<string, string>)
    requires "void" !in translations
    ensures GetTypeCsName(translations, "void") == Ok("void")
  {
    NotVkPrefixed("void");
    NotScalarSuffixed("void");
    assert "void"[1..] !in VendorTokens;
  }

  lemma RegionExtName(translations: map<string, string>)
    requires "VkRegionEXT" !in translations
    ensures GetTypeCsName(translations, "VkRegionEXT") == Ok("RegionExt")
  {
    assert "VkRegionEXT"[..2] == VkPrefix;
    assert "VkRegionEXT"[2..] == "RegionEXT";
    assert "RegionEXT"[6..] == "EXT";
    assert "RegionEXT"[..6] + "Ext" == "RegionExt";
  }

  lemma SeedScalars()
    ensures "UInt32" in BlittableSeed && "Int32" in BlittableSeed
  {
  }

  // ---------------------------------------------------------------------------
  // Generic steps
  // ---------------------------------------------------------------------------

  /** The state `InspectStructure` produces once the canonical name and both
      member verdicts are known. */
  lemma StructureOutcome(s: State, e: TypeEntry, cs: string, marshal: bool, blit: bool)
    requires GetTypeCsName(s.translations, e.name) == Ok(cs)
    requires AllTypesResolve(s.translations, e.members)
    requires marshal <==> exists i :: 0 <= i < |e.members| && ForcesMarshalling(s, e.members[i])
    requires blit <==> forall i :: 0 <= i < |e.members| ==> KeepsBlittable(s, e.members[i])
    ensures InspectStructure(s, e) ==
              Ok(State(s.translations[e.name := cs], s.handles, s.structures[cs := StructInfo(e.name, marshal)],
                       if blit then s.blittable + {cs} else s.blittable))
  {
    InspectStructureStores(s, e);
    InspectStructureVerdicts(s, e);
    var t := InspectStructure(s, e).value;
    StateFields(s, t, e.name, cs, StructInfo(e.name, marshal), if blit then s.blittable + {cs} else s.blittable);
  }

  lemma StateFields(s: State, t: State, raw: string, cs: string, info: StructInfo, blittable: set<string>)
    requires t.translations == s.translations[raw := cs] && t.handles == s.handles
    requires t.structures.Keys == s.structures.Keys + {cs} && t.structures[cs] == info
    requires forall k :: k in s.structures && k != cs ==> t.structures[k] == s.structures[k]
    requires t.blittable == blittable
    ensures t == State(s.translations[raw := cs], s.handles, s.structures[cs := info], blittable)
  {
    assert t.structures == s.structures[cs := info];
  }

  /** A member without `*` or `[` whose type canonicalises to a blittable
      name that is neither a structure nor a handle. */
  lemma PlainMember(s: State, m: Member, binding: string)
    requires GetTypeCsName(s.translations, m.typeText) == Ok(binding)
    requires '*' !in m.text && '[' !in m.text
    requires binding in s.blittable && binding !in s.structures && binding !in s.handles
    ensures TypeResolves(s.translations, m) && KeepsBlittable(s, m) && !ForcesMarshalling(s, m)
  {
  }

  /** Two members that each resolve, keep blittability and force no
      marshalling. */
  lemma PlainPair(s: State, ms: seq<Member>)
    requires |ms| == 2
    requires TypeResolves(s.translations, ms[0]) && KeepsBlittable(s, ms[0]) && !ForcesMarshalling(s, ms[0])
    requires TypeResolves(s.translations, ms[1]) && KeepsBlittable(s, ms[1]) && !ForcesMarshalling(s, ms[1])
    ensures AllTypesResolve(s.translations, ms)
    ensures forall i :: 0 <= i < |ms| ==> KeepsBlittable(s, ms[i])
    ensures forall i :: 0 <= i < |ms| ==> !ForcesMarshalling(s, ms[i])
  {
    assert forall i :: 0 <= i < |ms| ==> ms[i] == ms[0] || ms[i] == ms[1];
  }

  lemma FoldOne(s: State, a: TypeEntry, pass: Pass)
    ensures Fold(s, [a], pass) == InspectEntry(pass, s, a)
  {
    assert [a][1..] == [];
  }

  lemma FoldTwo(s: State, a: TypeEntry, b: TypeEntry, pass: Pass)
    requires InspectEntry(pass, s, a).Ok?
    ensures Fold(s, [a, b], pass) == InspectEntry(pass, InspectEntry(pass, s, a).value, b)
  {
    assert [a, b][1..] == [b];
    FoldOne(InspectEntry(pass, s, a).value, b, pass);
  }

  lemma FilterTwo(a: TypeEntry, b: TypeEntry, category: string)
    ensures Filter([a, b], category) ==
              (if a.category == category then [a] else []) + (if b.category == category then [b] else [])
  {
    assert [a, b][1..] == [b];
    assert [b][1..] == [];
  }

  lemma FilterThree(a: TypeEntry, b: TypeEntry, c: TypeEntry, category: string)
    ensures Filter([a, b, c], category) ==
              (if a.category == category then [a] else []) + Filter([b, c], category)
  {
    assert [a, b, c][1..] == [b, c];
  }

  /** `Inspect` over two structure declarations runs the two structure
      inspections in order. */
  lemma TwoStructures(es: seq<TypeEntry>, a: TypeEntry, b: TypeEntry)
    requires es == [a, b] && a.category == StructCategory && b.category == StructCategory
    requires InspectStructure(Initial, a).Ok?
    ensures Inspect(es) == InspectStructure(InspectStructure(Initial, a).value, b)
  {
    StructuresOnly(es, a, b);
    FoldTwo(Initial, a, b, StructurePass);
  }

  /** `Inspect` over a handle and two structures registers the handle, then
      runs the two structure inspections in order. */
  lemma HandleThenTwoStructures(es: seq<TypeEntry>, h: TypeEntry, a: TypeEntry, b: TypeEntry)
    requires es == [h, a, b]
    requires h.category == HandleCategory && a.category == StructCategory && b.category == StructCategory
    requires InspectHandle(Initial, h).Ok?
    requires InspectStructure(InspectHandle(Initial, h).value, a).Ok?
    ensures Inspect(es) == InspectStructure(InspectStructure(InspectHandle(Initial, h).value, a).value, b)
  {
    HandleThenStructuresFilters(es, h, a, b);
    FoldOne(Initial, h, HandlePass);
    FoldTwo(InspectHandle(Initial, h).value, a, b, StructurePass);
  }

  lemma HandleThenStructuresFilters(es: seq<TypeEntry>, h: TypeEntry, a: TypeEntry, b: TypeEntry)
    requires es == [h, a, b]
    requires h.category == HandleCategory && a.category == StructCategory && b.category == StructCategory
    ensures Filter(es, HandleCategory) == [h]
    ensures Filter(es, StructCategory) == [a, b]
    ensures Filter(es, UnionCategory) == []
  {
    FilterThree(h, a, b, HandleCategory);
    FilterThree(h, a, b, StructCategory);
    FilterThree(h, a, b, UnionCategory);
    FilterTwo(a, b, HandleCategory);
    FilterTwo(a, b, StructCategory);
    FilterTwo(a, b, UnionCategory);
  }

  // ---------------------------------------------------------------------------
  // A handle, a structure of primitives, a structure with a pointer
  // ---------------------------------------------------------------------------

  const Instance: TypeEntry := TypeEntry(HandleCategory, "VkInstance", "VK_DEFINE_HANDLE", [])

  const Extent2D: TypeEntry :=
    TypeEntry(StructCategory, "VkExtent2D", "", [
      Member("uint32_t", "width", "uint32_t width"),
      Member("uint32_t", "height", "uint32_t height")])

  const RegionExt: TypeEntry :=
    TypeEntry(StructCategory, "VkRegionEXT", "", [
      Member("VkExtent2D", "extent", "VkExtent2D extent"),
      Member("void", "pNext", "const void* pNext")])

  lemma HandleStep()
    ensures InspectHandle(Initial, Instance).Ok?
    ensures var s1 := InspectHandle(Initial, Instance).value;
            && s1.translations == SeedTranslations && s1.structures == map[] && s1.blittable == BlittableSeed
            && s1.handles.Keys == {"Instance"}
  {
    PrefixedName(SeedTranslations, "VkInstance", "Instance");
  }

  lemma WidthText()
    ensures '*' !in "uint32_t width" && '[' !in "uint32_t width"
  {
  }

  lemma HeightText()
    ensures '*' !in "uint32_t height" && '[' !in "uint32_t height"
  {
  }

  lemma Extent2DMembers(s: State)
    requires s.translations == SeedTranslations && s.blittable == BlittableSeed && s.structures == map[]
    requires s.handles.Keys == {"Instance"}
    ensures AllTypesResolve(s.translations, Extent2D.members)
    ensures forall i :: 0 <= i < |Extent2D.members| ==> KeepsBlittable(s, Extent2D.members[i])
    ensures forall i :: 0 <= i < |Extent2D.members| ==> !ForcesMarshalling(s, Extent2D.members[i])
  {
    Uint32Name(s.translations);
    SeedScalars();
    WidthText();
    HeightText();
    PlainMember(s, Extent2D.members[0], "UInt32");
    PlainMember(s, Extent2D.members[1], "UInt32");
    PlainPair(s, Extent2D.members);
  }

  lemma Extent2DStep(s: State)
    requires s.translations == SeedTranslations && s.blittable == BlittableSeed && s.structures == map[]
    requires s.handles.Keys == {"Instance"}
    ensures InspectStructure(s, Extent2D) ==
              Ok(State(SeedTranslations["VkExtent2D" := "Extent2D"], s.handles,
                       map["Extent2D" := StructInfo("VkExtent2D", false)], BlittableSeed + {"Extent2D"}))
  {
    PrefixedName(s.translations, "VkExtent2D", "Extent2D");
    Extent2DMembers(s);
    StructureOutcome(s, Extent2D, "Extent2D", false, true);
  }

  lemma PointerText()
    ensures '*' in "const void* pNext"
  {
    assert "const void* pNext"[10] == '*';
  }

  lemma RegionExtMembers(s: State)
    requires s.translations == SeedTranslations["VkExtent2D" := "Extent2D"]
    requires s.blittable == BlittableSeed + {"Extent2D"}
    ensures AllTypesResolve(s.translations, RegionExt.members)
    ensures !KeepsBlittable(s, RegionExt.members[1])
    ensures ForcesMarshalling(s, RegionExt.members[1])
  {
    var extent := RegionExt.members[0];
    var next := RegionExt.members[1];
    assert RegionExt.members == [extent, next];
    assert TypeResolves(s.translations, extent) by {
      assert extent.typeText in s.translations;
    }
    PNextMember(s, next);
  }

  lemma PNextMember(s: State, m: Member)
    requires m == Member("void", "pNext", "const void* pNext")
    requires s.translations == SeedTranslations["VkExtent2D" := "Extent2D"]
    requires s.blittable == BlittableSeed + {"Extent2D"}
    ensures TypeResolves(s.translations, m) && !KeepsBlittable(s, m) && ForcesMarshalling(s, m)
  {
    VoidName(s.translations);
    assert "void" !in BlittableSeed + {"Extent2D"};
    PointerText();
  }

  lemma RegionExtStep(s: State)
    requires s.translations == SeedTranslations["VkExtent2D" := "Extent2D"]
    requires s.structures == map["Extent2D" := StructInfo("VkExtent2D", false)]
    requires s.blittable == BlittableSeed + {"Extent2D"}
    ensures InspectStructure(s, RegionExt) ==
              Ok(s.(translations := s.translations["VkRegionEXT" := "RegionExt"],
                    structures := s.structures["RegionExt" := StructInfo("VkRegionEXT", true)]))
  {
    RegionExtName(s.translations);
    RegionExtMembers(s);
    StructureOutcome(s, RegionExt, "RegionExt", true, false);
  }

  lemma NamesNotBlittable()
    ensures "Instance" !in BlittableSeed + {"Extent2D"}
    ensures "RegionExt" !in BlittableSeed + {"Extent2D"}
  {
  }

  /** The handle is registered and not blittable; the structure of
      primitives is blittable and needs no marshalling; the structure with a
      pointer needs marshalling and is not blittable. The last one fails the
      blittability test on its `void` member, not on the pointer, which that
      test does not look at. */
  lemma HandleAndTwoStructures(es: seq<TypeEntry>)
    requires es == [Instance, Extent2D, RegionExt]
    ensures var r := Inspect(es);
            && r.Ok?
            && "Instance" in r.value.handles && "Instance" !in r.value.blittable
            && "Extent2D" in r.value.blittable
            && "Extent2D" in r.value.structures && !r.value.structures["Extent2D"].needsMarshalling
            && "RegionExt" !in r.value.blittable
            && "RegionExt" in r.value.structures && r.value.structures["RegionExt"].needsMarshalling
  {
    HandleStep();
    var s1 := InspectHandle(Initial, Instance).value;
    Extent2DStep(s1);
    var s2 := InspectStructure(s1, Extent2D).value;
    RegionExtStep(s2);
    HandleThenTwoStructures(es, Instance, Extent2D, RegionExt);
    NamesNotBlittable();
  }

  // ---------------------------------------------------------------------------
  // Declaration order decides blittability
  // ---------------------------------------------------------------------------

  const Offset2D: TypeEntry :=
    TypeEntry(StructCategory, "VkOffset2D", "", [
      Member("int32_t", "x", "int32_t x"),
      Member("int32_t", "y", "int32_t y")])

  const Rect2D: TypeEntry :=
    TypeEntry(StructCategory, "VkRect2D", "", [Member("VkOffset2D", "offset", "VkOffset2D offset")])

  lemma Offset2DMembers(s: State)
    requires "int32_t" !in s.translations
    requires "Int32" in s.blittable && "Int32" !in s.structures && "Int32" !in s.handles
    ensures AllTypesResolve(s.translations, Offset2D.members)
    ensures forall i :: 0 <= i < |Offset2D.members| ==> KeepsBlittable(s, Offset2D.members[i])
    ensures forall i :: 0 <= i < |Offset2D.members| ==> !ForcesMarshalling(s, Offset2D.members[i])
  {
    Int32Name(s.translations);
    assert '*' !in "int32_t x" && '[' !in "int32_t x";
    assert '*' !in "int32_t y" && '[' !in "int32_t y";
    PlainMember(s, Offset2D.members[0], "Int32");
    PlainMember(s, Offset2D.members[1], "Int32");
    PlainPair(s, Offset2D.members);
  }

  lemma Rect2DMember(s: State)
    requires GetTypeCsName(s.translations, "VkOffset2D") == Ok("Offset2D")
    requires "Offset2D" !in s.handles
    requires "Offset2D" in s.structures ==> !s.structures["Offset2D"].needsMarshalling
    ensures AllTypesResolve(s.translations, Rect2D.members)
    ensures (forall i :: 0 <= i < |Rect2D.members| ==> KeepsBlittable(s, Rect2D.members[i])) <==> "Offset2D" in s.blittable
    ensures forall i :: 0 <= i < |Rect2D.members| ==> !ForcesMarshalling(s, Rect2D.members[i])
  {
    var m := Rect2D.members[0];
    assert Rect2D.members == [m];
    assert '*' !in "VkOffset2D offset" && '[' !in "VkOffset2D offset";
    assert KeepsBlittable(s, m) <==> "Offset2D" in s.blittable;
  }

  /** `VkOffset2D` first: it joins the blittable set. */
  lemma Offset2DStep(s: State)
    requires s.translations == SeedTranslations && s.blittable == BlittableSeed
    requires s.structures == map[] && s.handles == map[]
    ensures InspectStructure(s, Offset2D) ==
              Ok(State(SeedTranslations["VkOffset2D" := "Offset2D"], map[],
                       map["Offset2D" := StructInfo("VkOffset2D", false)], BlittableSeed + {"Offset2D"}))
  {
    SeedScalars();
    PrefixedName(s.translations, "VkOffset2D", "Offset2D");
    Offset2DMembers(s);
    StructureOutcome(s, Offset2D, "Offset2D", false, true);
  }

  /** `VkRect2D` after `VkOffset2D`: its member is blittable, so it is too. */
  lemma Rect2DAfterOffset2D(s: State)
    requires s.translations == SeedTranslations["VkOffset2D" := "Offset2D"]
    requires s.structures == map["Offset2D" := StructInfo("VkOffset2D", false)] && s.handles == map[]
    requires s.blittable == BlittableSeed + {"Offset2D"}
    ensures InspectStructure(s, Rect2D) ==
              Ok(s.(translations := s.translations["VkRect2D" := "Rect2D"],
                    structures := s.structures["Rect2D" := StructInfo("VkRect2D", false)],
                    blittable := s.blittable + {"Rect2D"}))
  {
    PrefixedName(s.translations, "VkRect2D", "Rect2D");
    Rect2DMember(s);
    StructureOutcome(s, Rect2D, "Rect2D", false, true);
  }

  lemma SeedRect2DName()
    ensures GetTypeCsName(SeedTranslations, "VkRect2D") == Ok("Rect2D")
  {
    PrefixedName(SeedTranslations, "VkRect2D", "Rect2D");
  }

  lemma SeedOffset2DName()
    ensures GetTypeCsName(SeedTranslations, "VkOffset2D") == Ok("Offset2D")
  {
    PrefixedName(SeedTranslations, "VkOffset2D", "Offset2D");
  }

  lemma NotYetBlittable()
    ensures "Offset2D" !in BlittableSeed
    ensures "Rect2D" !in BlittableSeed + {"Offset2D"}
  {
  }

  /** `VkRect2D` before `VkOffset2D`: its member's type is not yet blittable,
      so it stays out of the set. */
  lemma Rect2DFirst(s: State)
    requires s.translations == SeedTranslations && s.blittable == BlittableSeed
    requires s.structures == map[] && s.handles == map[]
    ensures InspectStructure(s, Rect2D) ==
              Ok(s.(translations := s.translations["VkRect2D" := "Rect2D"],
                    structures := map["Rect2D" := StructInfo("VkRect2D", false)]))
  {
    SeedRect2DName();
    SeedOffset2DName();
    NotYetBlittable();
    Rect2DMember(s);
    StructureOutcome(s, Rect2D, "Rect2D", false, false);
  }

  /** `VkOffset2D` after `VkRect2D`: it still joins the blittable set. */
  lemma Offset2DAfterRect2D(s: State)
    requires s.translations == SeedTranslations["VkRect2D" := "Rect2D"]
    requires s.structures == map["Rect2D" := StructInfo("VkRect2D", false)] && s.handles == map[]
    requires s.blittable == BlittableSeed
    ensures InspectStructure(s, Offset2D) ==
              Ok(s.(translations := s.translations["VkOffset2D" := "Offset2D"],
                    structures := s.structures["Offset2D" := StructInfo("VkOffset2D", false)],
                    blittable := BlittableSeed + {"Offset2D"}))
  {
    SeedScalars();
    PrefixedName(s.translations, "VkOffset2D", "Offset2D");
    Offset2DMembers(s);
    StructureOutcome(s, Offset2D, "Offset2D", false, true);
  }

  lemma StructuresOnly(es: seq<TypeEntry>, a: TypeEntry, b: TypeEntry)
    requires es == [a, b] && a.category == StructCategory && b.category == StructCategory
    ensures Filter(es, HandleCategory) == [] && Filter(es, StructCategory) == es && Filter(es, UnionCategory) == []
  {
    FilterTwo(a, b, HandleCategory);
    FilterTwo(a, b, StructCategory);
    FilterTwo(a, b, UnionCategory);
  }

  /** A structure declared after the structure it contains is blittable. */
  lemma ContainedStructureFirst(es: seq<TypeEntry>)
    requires es == [Offset2D, Rect2D]
    ensures Inspect(es).Ok?
    ensures "Offset2D" in Inspect(es).value.blittable && "Rect2D" in Inspect(es).value.blittable
  {
    Offset2DStep(Initial);
    Rect2DAfterOffset2D(InspectStructure(Initial, Offset2D).value);
    TwoStructures(es, Offset2D, Rect2D);
  }

  /** The same two declarations the other way round leave the containing
      structure out of the blittable set. */
  lemma ContainingStructureFirst(es: seq<TypeEntry>)
    requires es == [Rect2D, Offset2D]
    ensures Inspect(es).Ok?
    ensures "Offset2D" in Inspect(es).value.blittable && "Rect2D" !in Inspect(es).value.blittable
  {
    Rect2DFirst(Initial);
    Offset2DAfterRect2D(InspectStructure(Initial, Rect2D).value);
    TwoStructures(es, Rect2D, Offset2D);
    NotYetBlittable();
  }

  // ---------------------------------------------------------------------------
  // A pointer does not stop a structure from being blittable
  // ---------------------------------------------------------------------------

  const ShaderCode: TypeEntry :=
    TypeEntry(StructCategory, "VkShaderCode", "", [Member("uint32_t", "pCode", "const uint32_t* pCode")])

  lemma CodeText()
    ensures '*' in "const uint32_t* pCode" && '[' !in "const uint32_t* pCode"
  {
    assert "const uint32_t* pCode"[14] == '*';
  }

  lemma ShaderCodeMember(s: State)
    requires s == Initial
    ensures AllTypesResolve(s.translations, ShaderCode.members)
    ensures forall i :: 0 <= i < |ShaderCode.members| ==> KeepsBlittable(s, ShaderCode.members[i])
    ensures exists i :: 0 <= i < |ShaderCode.members| && ForcesMarshalling(s, ShaderCode.members[i])
  {
    Uint32Name(s.translations);
    SeedScalars();
    CodeText();
    assert ForcesMarshalling(s, ShaderCode.members[0]);
  }

  /** A structure whose only member points to a blittable scalar is both
      blittable and in need of marshalling: the two verdicts disagree. */
  lemma PointerMemberVerdictsDisagree(s: State)
    requires s == Initial
    ensures InspectStructure(s, ShaderCode) ==
              Ok(s.(translations := s.translations["VkShaderCode" := "ShaderCode"],
                    structures := map["ShaderCode" := StructInfo("VkShaderCode", true)],
                    blittable := BlittableSeed + {"ShaderCode"}))
  {
    PrefixedName(s.translations, "VkShaderCode", "ShaderCode");
    ShaderCodeMember(s);
    StructureOutcome(s, ShaderCode, "ShaderCode", true, true);
  }

  // ---------------------------------------------------------------------------
  // An unknown scalar is fatal only when a scan reaches it
  // ---------------------------------------------------------------------------

  /** `uint16_t` is a C scalar the basic-type map does not cover. */
  lemma Uint16Name(translations: map<string, string>)
    requires "uint16_t" !in translations
    ensures GetTypeCsName(translations, "uint16_t") == Err(UnsupportedBasicType("uint16_t"))
  {
    NotVkPrefixed("uint16_t");
    assert "uint16_t"[6..] == BasicSuffix;
  }

  const Packed: TypeEntry :=
    TypeEntry(StructCategory, "VkPacked", "", [
      Member("uint32_t", "a", "uint32_t a[4]"),
      Member("uint16_t", "f", "uint16_t f")])

  const Pointed: TypeEntry :=
    TypeEntry(StructCategory, "VkPointed", "", [
      Member("uint32_t", "p", "const uint32_t* p"),
      Member("uint16_t", "f", "uint16_t f")])

  /** The array member of `Packed` stops both scans; the scalar after it
      does not resolve. */
  lemma PackedMembers(s: State, ms: seq<Member>)
    requires s == Initial && ms == Packed.members
    ensures |ms| == 2 && TypeResolves(s.translations, ms[0]) && !TypeResolves(s.translations, ms[1])
    ensures ForcesMarshalling(s, ms[0]) && !KeepsBlittable(s, ms[0])
  {
    Uint32Name(s.translations);
    Uint16Name(s.translations);
    ArrayText();
  }

  lemma ArrayText()
    ensures ArrayPastStart("uint32_t a[4]")
  {
    assert "uint32_t a[4]"[10] == '[';
  }

  lemma PackedName()
    ensures GetTypeCsName(SeedTranslations, "VkPacked") == Ok("Packed")
  {
    PrefixedName(SeedTranslations, "VkPacked", "Packed");
  }

  /** Neither scan of `Packed` reaches its unknown scalar. */
  lemma PackedScansStop(s: State)
    requires s == Initial
    ensures !AllTypesResolve(s.translations, Packed.members)
    ensures !MarshallingScanFails(s, Packed.members) && !BlittableScanFails(s, Packed.members)
  {
    var ms := Packed.members;
    PackedMembers(s, ms);
    ScanReachesStep(ms, m => !TypeResolves(s.translations, m), m => ForcesMarshalling(s, m));
    ScanReachesStep(ms, m => !TypeResolves(s.translations, m), m => !KeepsBlittable(s, m));
  }

  /** An array member ends both scans, so the unknown scalar after it is
      never canonicalised and the structure is inspected without error,
      although not every member type resolves. */
  lemma ArrayBeforeUnknownScalar(s: State)
    requires s == Initial
    ensures !AllTypesResolve(s.translations, Packed.members)
    ensures InspectStructure(s, Packed).Ok?
  {
    PackedScansStop(s);
    PackedName();
    InspectStructureErrIff(s, Packed);
  }

  /** The same unknown scalar after a pointer member is fatal: the
      marshalling scan stops at the pointer, but the blittability scan does
      not look at `*` and goes on to the scalar. */
  lemma PointerBeforeUnknownScalar(s: State)
    requires s == Initial
    ensures InspectStructure(s, Pointed).Err?
  {
    var ms := Pointed.members;
    Uint32Name(s.translations);
    Uint16Name(s.translations);
    SeedScalars();
    assert ms[1..][0] == ms[1];
    assert !TypeResolves(s.translations, ms[1]);
    PointedText();
    assert KeepsBlittable(s, ms[0]);
    ScanReachesStep(ms, m => !TypeResolves(s.translations, m), m => !KeepsBlittable(s, m));
    ScanReachesStep(ms[1..], m => !TypeResolves(s.translations, m), m => !KeepsBlittable(s, m));
    InspectStructureErrIff(s, Pointed);
  }

  lemma PointedText()
    ensures '[' !in "const uint32_t* p"
  {
  }

  // ---------------------------------------------------------------------------
  // A handle whose name is a seed primitive
  // ---------------------------------------------------------------------------

  const Bool32Handle: TypeEntry := TypeEntry(HandleCategory, "VkBool32", "VK_DEFINE_HANDLE", [])

  lemma OnlyHandle(es: seq<TypeEntry>, h: TypeEntry)
    requires es == [h] && h.category == HandleCategory
    ensures Filter(es, HandleCategory) == es && Filter(es, StructCategory) == [] && Filter(es, UnionCategory) == []
  {
    assert es[1..] == [];
  }

  /** Nothing keeps a handle out of the blittable set: a handle named
      `VkBool32` is registered as `Bool32`, which is a seed primitive. */
  lemma HandleCanBeBlittable(es: seq<TypeEntry>)
    requires es == [Bool32Handle]
    ensures Inspect(es).Ok?
    ensures "Bool32" in Inspect(es).value.handles && "Bool32" in Inspect(es).value.blittable
  {
    OnlyHandle(es, Bool32Handle);
    PrefixedName(SeedTranslations, "VkBool32", "Bool32");
    FoldOne(Initial, Bool32Handle, HandlePass);
    assert "Bool32" in BlittableSeed;
  }

  // ---------------------------------------------------------------------------
  // A handle declared twice
  // ---------------------------------------------------------------------------

  const Device: TypeEntry := TypeEntry(HandleCategory, "VkDevice", "VK_DEFINE_HANDLE", [])

  /** Registering the same handle name twice aborts the inspection. */
  lemma DuplicateHandleAborts(es: seq<TypeEntry>)
    requires es == [Device, Device]
    ensures Inspect(es) == Err(DuplicateHandle("Device"))
  {
    FilterTwo(Device, Device, HandleCategory);
    PrefixedName(SeedTranslations, "VkDevice", "Device");
    var s1 := InspectHandle(Initial, Device).value;
    assert InspectHandle(s1, Device) == Err(DuplicateHandle("Device"));
    FoldTwo(Initial, Device, Device, HandlePass);
  }
}
