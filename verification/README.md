# VkEntityInspector in Dafny

A model of `VkEntityInspector`, the part of the CommandGen binding generator
that reads the `<types>` section of the Vulkan registry and builds the
catalogue the code generator works from:

- the **translation table** of raw names to C# names (`mTypesTranslation`);
- the **handles** (`mHandles`), keyed by canonical name;
- the **structures** and unions (`mStructures`), keyed by canonical name, each
  with its raw name and a `needsMarshalling` verdict;
- the **blittable set** (`mBlittableTypes`): types that can be copied
  byte-for-byte between native and managed memory.

Modules, one per concern of the C# class:

| module | what it holds |
|---|---|
| `Results` | `Result` and the two exceptions the inspector can raise |
| `Strings` | `StartsWith`, `EndsWith`, `IndexOf` |
| `Naming` | the name tables and `GetTypeCsName` |
| `Descriptor` | the parsed `<type>` and `<member>` elements |
| `Catalog` | the inspector state and the blittable seed |
| `Inspector` | `InspectHandle`, `InspectStructure`, `InspectStructureMembers`, `IsStructBlittable` |
| `Driver` | `GenerateType` and `Inspect` |
| `Scenarios` | small registries whose `Inspect` outcome is proved |

Each exception the C# code throws becomes an `Err`:

- `NotImplementedException` for an unknown `_t` scalar becomes `UnsupportedBasicType`.
- The `ArgumentException` that `Dictionary.Add` throws on a repeated handle becomes `DuplicateHandle`.

The caller catches every exception and abandons the run, so an `Err` ends the
whole inspection and no partial state is returned.

The main results:

- **Vendor suffixes.** The `foreach` over the vendor table equals a single lookup of the name's last three characters. After one rewrite, no later key can match (`Naming.ExtensionsLoopIsSuffixLookup`).
- **Name storage.** Storing a structure's raw name against its own canonical form never changes a later canonicalisation (`Naming.StoringCanonicalNameIsTransparent`). The translation table grows during a run, but `GetTypeCsName` gives the same answers as on the seed table (`Driver.Inspect`).
- **The two verdicts.** They are characterised member by member, both against the state before the structure was recorded (`Inspector.InspectStructureVerdicts`).
- **When a structure fails.** Each member scan throws exactly when it reaches a member type that cannot be canonicalised before the member that stops it (`Inspector.MarshallingScanErrIff`, `Inspector.BlittableScanErrIff`). A structure fails exactly when its name or one of the two scans fails (`Inspector.InspectStructureErrIff`).
- **Whole runs.**
  - The blittable set only grows, and only by recorded structure names.
  - Every structure and union is recorded.
  - A successful run has fresh, pairwise distinct canonical handle names and registers every handle element; a repeated name makes the run fail (`Driver.InspectRegistersHandles`). The exact if-and-only-if holds for the handle pass alone (`Driver.HandlePassSucceedsIffFresh`): a later structure can still make a run with fresh handle names fail.

Where the code does something other than what a reader of the generator would
expect, the model follows the code:

- A handle declared twice is **not** silently overwritten. `mHandles.Add` throws, which aborts the run (`Scenarios.DuplicateHandleAborts`). Structures declared twice are overwritten (`mStructures[csName] = …`).
- The blittability test does **not** look at `*`. A structure whose only member is a pointer to a blittable scalar is both blittable and in need of marshalling (`Scenarios.PointerMemberVerdictsDisagree`).
- In the handle-and-two-structures example, the structure with a pointer member is left out of the blittable set because its `void` member is not blittable. The pointer has nothing to do with it (`Scenarios.HandleAndTwoStructures`).
- Nothing keeps handles out of the blittable set. `Driver.Inspect` bounds that set only by the seed plus the recorded structures. A handle named `VkBool32` is registered as `Bool32`, a seed primitive, and so lands in the set (`Scenarios.HandleCanBeBlittable`).
- An unknown `_t` scalar is fatal only when a scan reaches it. Both scans stop at the member that decides them, so a member after it is never canonicalised. With an array member `uint32_t a[4]` first, a later `uint16_t` member is never looked at and the structure is inspected without error (`Scenarios.ArrayBeforeUnknownScalar`). With a pointer member `const uint32_t* p` first, the blittability scan does not stop at the `*`, reaches the `uint16_t` and fails (`Scenarios.PointerBeforeUnknownScalar`).

## Model

| member | source | states |
|---|---|---|
| Naming.GetTypeCsName | tools/CommandGen/CommandGen/VkEntityInspector.cs:82-109 | An override is returned verbatim, with no vendor rewrite. A `Vk` name loses exactly two characters and then gets the vendor rule. A `_t` scalar becomes its basic-type entry, or fails when it has none. Any other name passes through apart from the vendor rule. |
| Naming.ExtensionsLoopIsSuffixLookup | tools/CommandGen/CommandGen/VkEntityInspector.cs:104-106 | The ordered loop over EXT/IMG/KHR, which cuts as many characters as the replacement has, gives the same result as one lookup of the last three characters in the vendor table. |
| Naming.CandidateName | tools/CommandGen/CommandGen/VkEntityInspector.cs:89-102 | The candidate before the vendor rewrite. A `Vk` name is the prefix followed by the candidate. A `_t` scalar gives its basic-type entry. Any other name is its own candidate. It fails if and only if the name is an unprefixed `_t` scalar missing from the basic-type map, and the error names that scalar. |
| Naming.ApplyExtensions | tools/CommandGen/CommandGen/VkEntityInspector.cs:104-106 | The `foreach` over the vendor table, each entry tried in turn on the current candidate, keeps the length of the name. With `Naming.ExtensionsLoopIsSuffixLookup` it equals the single lookup `Naming.NormalizeVendorSuffix`. |
| Naming.NormalizeVendorSuffix | tools/CommandGen/CommandGen/VkEntityInspector.cs:46-50 | The vendor rewrite keeps the length and everything before the last three characters. Its result never ends in an upper-case vendor token. A name without such a token is unchanged. |
| Naming.NormalizeVendorSuffixIdempotent | tools/CommandGen/CommandGen/VkEntityInspector.cs:104-106 | Applying the vendor rewrite twice is the same as applying it once. |
| Naming.GetTypeCsNameFailsOnlyOnUnknownScalar | tools/CommandGen/CommandGen/VkEntityInspector.cs:91-97 | Canonicalisation fails if and only if the name has no override, no `Vk` prefix, ends in `_t`, and is missing from the basic-type map. The error names that scalar. |
| Naming.CanonicalNameHasNoVendorToken | tools/CommandGen/CommandGen/VkEntityInspector.cs:87-108 | Without an override, no successful canonical name ends in `EXT`, `IMG` or `KHR`. |
| Naming.StoringCanonicalNameIsTransparent | tools/CommandGen/CommandGen/VkEntityInspector.cs:135-138 | Adding the entry raw name → its own canonical name to the table leaves the canonical form of every name unchanged. |
| Catalog.BasicTypesAreBlittable | tools/CommandGen/CommandGen/VkEntityInspector.cs:54-80 | Every type a C scalar maps to is in the initial blittable set. |
| Strings.IndexOf | tools/CommandGen/CommandGen/VkEntityInspector.cs:155 | The result is -1 exactly when the character is absent. Otherwise the character sits at that position and does not occur earlier. |
| Strings.IndexOfPastStart | tools/CommandGen/CommandGen/VkEntityInspector.cs:155 | `IndexOf('[') > 0` holds exactly when `[` occurs and is not the first character. |
| Inspector.InspectHandle | tools/CommandGen/CommandGen/VkEntityInspector.cs:123-130 | Succeeds if and only if the name canonicalises and the canonical name is not yet registered; a repeat yields `DuplicateHandle`. On success the handle set grows by exactly that name, with that name and the `<type>` text, and the earlier handles are kept. The translations, structures and blittable set are untouched. |
| Inspector.InspectStructureMembers | tools/CommandGen/CommandGen/VkEntityInspector.cs:168-181 | `true` means some member forces marshalling: it contains `*` or `[`, or its canonical type is a recorded structure that needs marshalling, or it is a registered handle. `false` means every member resolves and none does. An error means some member type does not canonicalise. When all member types resolve, there is no error. The exact error condition is `Inspector.MarshallingScanErrIff`. |
| Inspector.MarshallingScanErrIff | tools/CommandGen/CommandGen/VkEntityInspector.cs:170-177 | The marshalling scan throws if and only if some member type does not canonicalise and no member before it forces marshalling. A member after the first forcing one is never canonicalised. |
| Inspector.IsStructBlittable | tools/CommandGen/CommandGen/VkEntityInspector.cs:144-166 | `true` means every member resolves to a blittable type and has no `[` past position 0. `false` means some resolving member fails that test. An error means some member type does not canonicalise. When all member types resolve, there is no error. The exact error condition is `Inspector.BlittableScanErrIff`. |
| Inspector.BlittableScanErrIff | tools/CommandGen/CommandGen/VkEntityInspector.cs:147-162 | The blittability scan throws if and only if some member type does not canonicalise and every member before it keeps the structure blittable. A `*` does not stop the scan. |
| Inspector.EmptyStructureIsBlittable | tools/CommandGen/CommandGen/VkEntityInspector.cs:144-166 | A structure without members is always added to the blittable set. |
| Inspector.InspectStructure | tools/CommandGen/CommandGen/VkEntityInspector.cs:133-142 | An error means the name or some member type does not canonicalise. When all of them do, it succeeds. The exact error condition is `Inspector.InspectStructureErrIff`. |
| Inspector.InspectStructureErrIff | tools/CommandGen/CommandGen/VkEntityInspector.cs:133-142 | Inspecting a structure throws if and only if its name does not canonicalise, or the marshalling scan or the blittability scan reaches an unresolvable member type before it stops. Both scans are read against the state before the structure. |
| Inspector.InspectStructureStores | tools/CommandGen/CommandGen/VkEntityInspector.cs:135-139 | The raw name is stored against its canonical name. The entry under the canonical name holds the raw name; it overwrites an earlier one of that name, and every other structure is kept. The handles are untouched. |
| Inspector.InspectStructureKeepsNames | tools/CommandGen/CommandGen/VkEntityInspector.cs:138 | After a structure is inspected, every name canonicalises as before. |
| Inspector.InspectStructureVerdicts | tools/CommandGen/CommandGen/VkEntityInspector.cs:139-141 | Both verdicts are read against the state before the structure. It needs marshalling if and only if some member forces it. It joins the blittable set if and only if every member keeps it blittable; otherwise the set is unchanged. |
| Inspector.MarshallingVerdictAfterStore | tools/CommandGen/CommandGen/VkEntityInspector.cs:138-139 | The marshalling scan, run after the translation store, gives the verdict the earlier state describes. |
| Inspector.BlittableVerdictAfterStore | tools/CommandGen/CommandGen/VkEntityInspector.cs:139-141 | The blittability scan, run after the store and the record, gives the verdict the earlier state describes. |
| Inspector.TranslationStoreIsTransparent | tools/CommandGen/CommandGen/VkEntityInspector.cs:138 | The state with the raw name stored canonicalises every name as the state before it does. |
| Driver.Filter | tools/CommandGen/CommandGen/VkEntityInspector.cs:113-115 | An element is selected if and only if it is in the document and has the given category. |
| Driver.FilterAppend | tools/CommandGen/CommandGen/VkEntityInspector.cs:113-115 | Selection keeps document order: it distributes over concatenation. |
| Driver.GenerateType | tools/CommandGen/CommandGen/VkEntityInspector.cs:111-121 | Visiting every element and acting on those of the category is the same as acting, in order, on the selected elements. |
| Driver.FoldExtends | tools/CommandGen/CommandGen/VkEntityInspector.cs:117-120 | A successful pass only extends the state. The blittable set grows, and only by recorded structure names. No structure or handle disappears. No name changes its canonical form. |
| Driver.EntryExtends | tools/CommandGen/CommandGen/VkEntityInspector.cs:119 | A single handle or structure inspection only extends the state. |
| Driver.HandlePassFrame | tools/CommandGen/CommandGen/VkEntityInspector.cs:40 | The handle pass changes nothing but the handles. |
| Driver.StructurePassFrame | tools/CommandGen/CommandGen/VkEntityInspector.cs:41-42 | The structure and union passes never change the handles. |
| Driver.StructurePassRecords | tools/CommandGen/CommandGen/VkEntityInspector.cs:117-120 | After a successful structure pass, every element it visited is recorded under its canonical name. |
| Driver.Inspect | tools/CommandGen/CommandGen/VkEntityInspector.cs:38-43 | After a successful run, the blittable set lies between the seed and the seed plus the recorded structures. The grown translation table canonicalises every name as the seed table does. Every struct and union element is recorded. |
| Driver.InspectRecords | tools/CommandGen/CommandGen/VkEntityInspector.cs:41-42 | The struct pass and then the union pass record every element of both categories. |
| Driver.PassRecords | tools/CommandGen/CommandGen/VkEntityInspector.cs:111-121 | One `GenerateType` structure pass records every element of its category. |
| Driver.HandlesFreshStep | tools/CommandGen/CommandGen/VkEntityInspector.cs:129 | The handles are fresh if and only if the first one is new and the rest are fresh after it is registered. They are not fresh when the first one fails. |
| Driver.HandlePassSucceedsIffFresh | tools/CommandGen/CommandGen/VkEntityInspector.cs:123-130 | The handle pass succeeds if and only if every handle name canonicalises and the canonical names are new and pairwise distinct. |
| Driver.HandlePassRegistersEachHandle | tools/CommandGen/CommandGen/VkEntityInspector.cs:123-130 | A successful handle pass registers each handle under its canonical name with its `<type>` text, and keeps every earlier handle. |
| Driver.HandlePassAddsNothingElse | tools/CommandGen/CommandGen/VkEntityInspector.cs:123-130 | Every handle after the pass was either there before or is the canonical name of a visited element. |
| Driver.InspectRegistersHandles | tools/CommandGen/CommandGen/VkEntityInspector.cs:38-43 | A successful run has distinct, fresh canonical handle names and registers every handle element. A repeated canonical handle name makes the run fail. |
| Driver.HandleElementsRegistered | tools/CommandGen/CommandGen/VkEntityInspector.cs:40 | The handle pass of a run registers every handle element. |
| Scenarios.StructureOutcome | tools/CommandGen/CommandGen/VkEntityInspector.cs:133-142 | Once the canonical name and both member verdicts are known, the whole state after the structure is determined. |
| Scenarios.TwoStructures | tools/CommandGen/CommandGen/VkEntityInspector.cs:38-43 | A registry of two structures is inspected as the two structure inspections in document order. |
| Scenarios.HandleThenTwoStructures | tools/CommandGen/CommandGen/VkEntityInspector.cs:38-43 | A handle followed by two structures registers the handle first, then inspects the structures in order. |
| Scenarios.HandleAndTwoStructures | tools/CommandGen/CommandGen/VkEntityInspector.cs:38-43 | For `VkInstance`, `VkExtent2D` and `VkRegionEXT`: the handle is registered and not blittable; `Extent2D` is blittable and needs no marshalling; `RegionExt` needs marshalling and is not blittable. |
| Scenarios.ContainedStructureFirst | tools/CommandGen/CommandGen/VkEntityInspector.cs:144-166 | `VkOffset2D` followed by `VkRect2D`, which contains it: both are blittable. |
| Scenarios.ContainingStructureFirst | tools/CommandGen/CommandGen/VkEntityInspector.cs:144-166 | The same two in the other order: `Rect2D` is not blittable, so declaration order decides blittability. |
| Scenarios.PointerMemberVerdictsDisagree | tools/CommandGen/CommandGen/VkEntityInspector.cs:155-176 | A structure whose only member is `const uint32_t* pCode` ends up both blittable and in need of marshalling. |
| Scenarios.ArrayBeforeUnknownScalar | tools/CommandGen/CommandGen/VkEntityInspector.cs:144-181 | A structure whose array member `uint32_t a[4]` comes before a `uint16_t` member is inspected without error, although `uint16_t` is not in the basic-type map. |
| Scenarios.PointerBeforeUnknownScalar | tools/CommandGen/CommandGen/VkEntityInspector.cs:144-166 | The same structure with `const uint32_t* p` in place of the array fails, because the blittability scan passes over the pointer and reaches `uint16_t`. |
| Scenarios.HandleCanBeBlittable | tools/CommandGen/CommandGen/VkEntityInspector.cs:38-43 | A handle named `VkBool32` is registered as `Bool32` and is in the blittable set after the run. |
| Scenarios.DuplicateHandleAborts | tools/CommandGen/CommandGen/VkEntityInspector.cs:129 | Two `VkDevice` handles make the run fail with `DuplicateHandle("Device")`. |

## Left out

- XML navigation: the LINQ query over `<types>/<type>` and the `Element`/`Attribute`/`Value` reads. Each element is given already parsed, as a `Descriptor.TypeEntry`.
- A missing `<name>`, `<type>` child or `name` attribute, which would make the C# code throw a `NullReferenceException`. The model assumes every element carries them.
- The warning printed by `GetTypeCsName` for a name with neither the `Vk` prefix nor the `_t` suffix. It is console output only, stated as the predicate `Naming.NamingWarning`.
- The `typeName` argument of `GetTypeCsName`. It only appears in the warning text.
- Dictionary enumeration order of the vendor table. The loop is modelled in insertion order (EXT, IMG, KHR). Because at most one key can match and every key has its replacement's length, the order does not change the result.
- Culture-aware comparison. `StartsWith`/`EndsWith` with `InvariantCulture` are modelled as ordinal comparisons, which differ only on ignorable or combining characters that registry names do not contain.
- The public accessors `BlittableTypes`, `Handles` and `Translations`. They return the fields that `Catalog.State` holds.
- The `IVkEntityInspector` interface, `Program.cs` (which loads the file, calls `Inspect` and catches every exception), the generated handle and structure files, and the interop helpers. Those are the inspector's callers and its output, not the inspector.
- Driver.Inspect: always starts from `Catalog.Initial`, a fresh inspector, whereas the C# `Inspect` works on whatever state the instance already holds. The only caller builds a new instance just before calling it (tools/CommandGen/CommandGen/Program.cs:29-30), so no reachable behaviour is lost.
- Driver.Fold: carries no contract of its own. What a pass preserves is stated by the lemmas `Driver.FoldExtends`, `Driver.HandlePassFrame`, `Driver.StructurePassFrame` and `Driver.StructurePassRecords`.
