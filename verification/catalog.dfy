/** The state the inspector accumulates: the fields of `VkEntityInspector`. */
module Catalog {
  import opened Naming

  /** `HandleInfo`: the canonical name and the underlying handle macro text. */
  datatype HandleInfo = HandleInfo(name: string, underlying: string)

  /** `StructInfo`: the RAW name and the marshalling verdict. */
  datatype StructInfo = StructInfo(name: string, needsMarshalling: bool)

  /** `mTypesTranslation`, `mHandles`, `mStructures` and `mBlittableTypes`. */
  datatype State = State(
    translations: map<string, string>,
    handles: map<string, HandleInfo>,
    structures: map<string, StructInfo>,
    blittable: set<string>)

  /** The twelve primitives that are blittable before any structure is seen. */
  const BlittableSeed: set<string> := {
    "Byte", "SByte", "Int32", "UInt32", "Int64", "UInt64",
    "float", "double", "IntPtr", "UIntPtr", "Bool32", "DeviceSize"
  }

  /** A freshly constructed inspector. */
  const Initial: State := State(SeedTranslations, map[], map[], BlittableSeed)

  /** Every primitive a C scalar maps to is blittable from the start. */
  lemma BasicTypesAreBlittable()
    ensures forall k :: k in BasicTypesMap ==> BasicTypesMap[k] in BlittableSeed
  {
  }
}
