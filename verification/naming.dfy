/** Name canonicalisation: `VkEntityInspector.GetTypeCsName`, which turns a
    raw Vulkan registry name into the identifier used in the C# binding. */
module Naming {
  import opened Results
  import opened Strings

  /** Prefix shared by every Vulkan type name. */
  const VkPrefix: string := "Vk"

  /** Suffix of the C scalar typedefs (`uint32_t`, `size_t`, ...). */
  const BasicSuffix: string := "_t"

  /** Initial contents of the translation table: platform window types that
      become a bare pointer. Structures add their own entries later. */
  const SeedTranslations: map<string, string> :=
    map["ANativeWindow" := "IntPtr", "HWND" := "IntPtr", "HINSTANCE" := "IntPtr"]

  /** Vendor suffix rewrites, in the order the loop visits them. */
  const Extensions: seq<(string, string)> := [("EXT", "Ext"), ("IMG", "Img"), ("KHR", "Khr")]

  /** C scalar typedefs and the binding type each one becomes. */
  const BasicTypesMap: map<string, string> :=
    map[
      "int32_t" := "Int32",
      "uint32_t" := "UInt32",
      "uint64_t" := "UInt64",
      "uint8_t" := "Byte",
      "size_t" := "UIntPtr",
      "xcb_connection_t" := "IntPtr",
      "xcb_window_t" := "IntPtr",
      "xcb_visualid_t" := "IntPtr"
    ]

  // ---------------------------------------------------------------------------
  // Vendor suffixes
  // ---------------------------------------------------------------------------

  /** Every vendor token and its replacement have the same length. */
  ghost predicate LengthPreserving(exts: seq<(string, string)>) {
    forall i :: 0 <= i < |exts| ==> |exts[i].0| == |exts[i].1|
  }

  /** One step of the vendor loop: replace `key` at the end of `cs` by `value`,
      cutting as many characters as `value` has. */
  function RewriteIfEndsWith(cs: string, key: string, value: string): (r: string)
    requires |key| == |value|
    ensures |r| == |cs|
  {
    if EndsWith(cs, key) then cs[..|cs| - |value|] + value else cs
  }

  /** The `foreach` over the vendor table: every entry is tried in turn on the
      current candidate. */
  function ApplyExtensions(cs: string, exts: seq<(string, string)>): (r: string)
    requires LengthPreserving(exts)
    ensures |r| == |cs|
    decreases |exts|
  {
    if |exts| == 0 then cs
    else ApplyExtensions(RewriteIfEndsWith(cs, exts[0].0, exts[0].1), exts[1..])
  }

  /** Reference reading of the vendor rule: look the last three characters up
      once, as a token-to-replacement map. */
  const VendorTokens: map<string, string> := map["EXT" := "Ext", "IMG" := "Img", "KHR" := "Khr"]

  predicate EndsWithVendorToken(cs: string) {
    |cs| >= 3 && cs[|cs| - 3..] in VendorTokens
  }

  /** The name with an upper-case vendor token at its end replaced by the
      mixed-case spelling. */
  function NormalizeVendorSuffix(cs: string): (r: string)
    ensures |r| == |cs|
    ensures |cs| >= 3 ==> r[..|cs| - 3] == cs[..|cs| - 3]
    ensures !EndsWithVendorToken(r)
    ensures !EndsWithVendorToken(cs) ==> r == cs
  {
    if EndsWithVendorToken(cs) then
      var r := cs[..|cs| - 3] + VendorTokens[cs[|cs| - 3..]];
      assert r[|r| - 3..] == VendorTokens[cs[|cs| - 3..]];
      r
    else cs
  }

  /** Rewriting twice is rewriting once. */
  lemma NormalizeVendorSuffixIdempotent(cs: string)
    ensures NormalizeVendorSuffix(NormalizeVendorSuffix(cs)) == NormalizeVendorSuffix(cs)
  {
  }

  /** The ordered loop over the vendor table applies at most one rewrite and
      agrees with the single lookup of the last three characters: after a
      token has been rewritten no later key can match. */
  lemma ExtensionsLoopIsSuffixLookup(cs: string)
    ensures ApplyExtensions(cs, Extensions) == NormalizeVendorSuffix(cs)
  {
    ExtensionsLoopUnrolled(cs);
    var c1 := RewriteIfEndsWith(cs, "EXT", "Ext");
    var c2 := RewriteIfEndsWith(c1, "IMG", "Img");
    var c3 := RewriteIfEndsWith(c2, "KHR", "Khr");
    if EndsWith(cs, "EXT") {
      assert c1[|c1| - 3..] == "Ext";
      assert c3 == c1;
    } else if EndsWith(cs, "IMG") {
      assert c2[|c2| - 3..] == "Img";
      assert c3 == c2;
    } else if EndsWith(cs, "KHR") {
      assert c3[|c3| - 3..] == "Khr";
    } else {
      assert c3 == cs;
    }
  }

  /** The loop over the three-entry table, written out. */
  lemma ExtensionsLoopUnrolled(cs: string)
    ensures ApplyExtensions(cs, Extensions) ==
              RewriteIfEndsWith(RewriteIfEndsWith(RewriteIfEndsWith(cs, "EXT", "Ext"), "IMG", "Img"), "KHR", "Khr")
  {
    var c1 := RewriteIfEndsWith(cs, "EXT", "Ext");
    var c2 := RewriteIfEndsWith(c1, "IMG", "Img");
    var c3 := RewriteIfEndsWith(c2, "KHR", "Khr");
    assert ApplyExtensions(cs, Extensions) == ApplyExtensions(c1, Extensions[1..]);
    assert ApplyExtensions(c1, Extensions[1..]) == ApplyExtensions(c2, Extensions[2..]);
    assert ApplyExtensions(c2, Extensions[2..]) == ApplyExtensions(c3, Extensions[3..]);
    assert Extensions[3..] == [];
  }

  // ---------------------------------------------------------------------------
  // GetTypeCsName
  // ---------------------------------------------------------------------------

  /** The candidate before the vendor rewrite: the `Vk` prefix stripped, a C
      scalar looked up, or the raw name passed through. */
  function CandidateName(name: string): (r: Result<string>)
    // the prefix case keeps everything after the prefix
    ensures StartsWith(name, VkPrefix) ==> r.Ok? && VkPrefix + r.value == name
    // a scalar becomes its table value
    ensures !StartsWith(name, VkPrefix) && EndsWith(name, BasicSuffix) && name in BasicTypesMap ==>
              r == Ok(BasicTypesMap[name])
    // any other name is its own candidate
    ensures !StartsWith(name, VkPrefix) && !EndsWith(name, BasicSuffix) ==> r == Ok(name)
    // the only failure is an unprefixed scalar missing from the map
    ensures r.Err? <==> !StartsWith(name, VkPrefix) && EndsWith(name, BasicSuffix) && name !in BasicTypesMap
    ensures r.Err? ==> r.error == UnsupportedBasicType(name)
  {
    if StartsWith(name, VkPrefix) then Ok(name[|VkPrefix|..])
    else if EndsWith(name, BasicSuffix) then
      if name in BasicTypesMap then Ok(BasicTypesMap[name])
      else Err(UnsupportedBasicType(name))
    else Ok(name)
  }

  /** The source prints a warning for a name that is neither overridden, nor
      prefixed with `Vk`, nor a `_t` scalar; the warning has no other effect. */
  predicate NamingWarning(translations: map<string, string>, name: string) {
    name !in translations && !StartsWith(name, VkPrefix) && !EndsWith(name, BasicSuffix)
  }

  /** No binding type of a C scalar carries a vendor token. */
  lemma BasicTypesHaveNoVendorToken()
    ensures forall k :: k in BasicTypesMap ==> !EndsWithVendorToken(BasicTypesMap[k])
  {
  }

  /** `GetTypeCsName` under the current translation table. */
  function GetTypeCsName(translations: map<string, string>, name: string): (r: Result<string>)
    // an override is returned verbatim, without any vendor rewrite
    ensures name in translations ==> r == Ok(translations[name])
    // exactly the first two characters are removed, then the vendor rule applies
    ensures name !in translations && StartsWith(name, VkPrefix) ==>
              r == Ok(NormalizeVendorSuffix(name[2..]))
    // a C scalar must be in the basic-type map and becomes its table value
    ensures name !in translations && !StartsWith(name, VkPrefix) && EndsWith(name, BasicSuffix) ==>
              r == (if name in BasicTypesMap then Ok(BasicTypesMap[name]) else Err(UnsupportedBasicType(name)))
    // anything else passes through, apart from the vendor rule
    ensures NamingWarning(translations, name) ==> r == Ok(NormalizeVendorSuffix(name))
  {
    if name in translations then Ok(translations[name])
    else
      var candidate :- CandidateName(name);
      ExtensionsLoopIsSuffixLookup(candidate);
      BasicTypesHaveNoVendorToken();
      Ok(ApplyExtensions(candidate, Extensions))
  }

  /** The only failure is a `_t` scalar missing from the basic-type map. */
  lemma GetTypeCsNameFailsOnlyOnUnknownScalar(translations: map<string, string>, name: string)
    ensures GetTypeCsName(translations, name).Err? <==>
              name !in translations && !StartsWith(name, VkPrefix) && EndsWith(name, BasicSuffix) && name !in BasicTypesMap
    ensures GetTypeCsName(translations, name).Err? ==> GetTypeCsName(translations, name).error == UnsupportedBasicType(name)
  {
  }

  /** Without an override, a successful canonical name never ends in an
      upper-case vendor token. */
  lemma CanonicalNameHasNoVendorToken(translations: map<string, string>, name: string)
    requires name !in translations
    requires GetTypeCsName(translations, name).Ok?
    ensures !EndsWithVendorToken(GetTypeCsName(translations, name).value)
  {
    if !StartsWith(name, VkPrefix) && EndsWith(name, BasicSuffix) {
      BasicTypesHaveNoVendorToken();
      assert GetTypeCsName(translations, name).value == BasicTypesMap[name];
    }
  }

  /** Storing a name's own canonical form in the translation table (what
      `InspectStructure` does) changes no later canonicalisation. */
  lemma StoringCanonicalNameIsTransparent(translations: map<string, string>, raw: string, name: string)
    requires GetTypeCsName(translations, raw).Ok?
    ensures GetTypeCsName(translations[raw := GetTypeCsName(translations, raw).value], name)
            == GetTypeCsName(translations, name)
  {
  }
}
