/** The per-entry inspections: `InspectHandle`, `InspectStructure` and the two
    member scans it runs, `InspectStructureMembers` and `IsStructBlittable`. */
module Inspector {
  import opened Results
  import opened Strings
  import opened Naming
  import opened Descriptor
  import opened Catalog

  // ---------------------------------------------------------------------------
  // Handles
  // ---------------------------------------------------------------------------

  /** `InspectHandle`: register the handle under its canonical name. The
      dictionary's `Add` throws when that name is already registered. */
  function InspectHandle(s: State, e: TypeEntry): (r: Result<State>)
    ensures r.Ok? <==>
              GetTypeCsName(s.translations, e.name).Ok? && GetTypeCsName(s.translations, e.name).value !in s.handles
    ensures GetTypeCsName(s.translations, e.name).Ok? && GetTypeCsName(s.translations, e.name).value in s.handles ==>
              r == Err(DuplicateHandle(GetTypeCsName(s.translations, e.name).value))
    ensures r.Ok? ==>
              var cs := GetTypeCsName(s.translations, e.name).value;
              && r.value.handles.Keys == s.handles.Keys + {cs}
              && r.value.handles[cs] == HandleInfo(cs, e.underlying)
              && (forall k :: k in s.handles ==> r.value.handles[k] == s.handles[k])
    // the translation table, the structures and the blittable set are untouched
    ensures r.Ok? ==>
              && r.value.translations == s.translations
              && r.value.structures == s.structures
              && r.value.blittable == s.blittable
  {
    var cs :- GetTypeCsName(s.translations, e.name);
    if cs in s.handles then Err(DuplicateHandle(cs))
    else Ok(s.(handles := s.handles[cs := HandleInfo(cs, e.underlying)]))
  }

  // ---------------------------------------------------------------------------
  // Member scans
  // ---------------------------------------------------------------------------

  /** The member's type canonicalises without an exception. */
  predicate TypeResolves(translations: map<string, string>, m: Member) {
    GetTypeCsName(translations, m.typeText).Ok?
  }

  predicate AllTypesResolve(translations: map<string, string>, ms: seq<Member>) {
    forall i :: 0 <= i < |ms| ==> TypeResolves(translations, ms[i])
  }

  /** The per-member test of `InspectStructureMembers`, given the member's
      canonical type `cs`. */
  predicate MarshalsAs(s: State, m: Member, cs: string) {
    '*' in m.text || '[' in m.text
    || (cs in s.structures && s.structures[cs].needsMarshalling)
    || cs in s.handles
  }

  /** A member that forces its structure to be marshalled: a pointer or an
      array, a structure already known to need marshalling, or a handle. */
  predicate ForcesMarshalling(s: State, m: Member) {
    TypeResolves(s.translations, m) && MarshalsAs(s, m, GetTypeCsName(s.translations, m.typeText).value)
  }

  /** `InspectStructureMembers`: scan the members in order, canonicalising
      each member's type and stopping at the first one that forces
      marshalling. */
  function InspectStructureMembers(s: State, ms: seq<Member>): (r: Result<bool>)
    ensures r.Ok? && r.value ==> exists i :: 0 <= i < |ms| && ForcesMarshalling(s, ms[i])
    ensures r.Ok? && !r.value ==>
              forall i :: 0 <= i < |ms| ==> TypeResolves(s.translations, ms[i]) && !ForcesMarshalling(s, ms[i])
    ensures r.Err? ==> exists i :: 0 <= i < |ms| && !TypeResolves(s.translations, ms[i])
    ensures AllTypesResolve(s.translations, ms) ==> r.Ok?
    decreases |ms|
  {
    if |ms| == 0 then Ok(false)
    else
      var cs :- GetTypeCsName(s.translations, ms[0].typeText);
      if MarshalsAs(s, ms[0], cs) then Ok(true)
      else
        var rest := InspectStructureMembers(s, ms[1..]);
        assert forall i :: 0 < i < |ms| ==> ms[i] == ms[1..][i - 1];
        rest
  }

  /** The array test of `IsStructBlittable` read without `IndexOf`: a `[`
      occurs and the text does not begin with it. */
  predicate ArrayPastStart(text: string) {
    '[' in text && text[0] != '['
  }

  /** A member that lets its structure stay blittable: its type resolves to a
      name already in the blittable set, and no `[` follows position 0. A
      `*` is not examined. */
  predicate KeepsBlittable(s: State, m: Member) {
    && TypeResolves(s.translations, m)
    && !ArrayPastStart(m.text)
    && GetTypeCsName(s.translations, m.typeText).value in s.blittable
  }

  /** `IsStructBlittable`, returning whether the structure is to be added
      instead of adding it: scan the members in order, canonicalising each
      member's type, and stop at the first array or non-blittable type. */
  function IsStructBlittable(s: State, ms: seq<Member>): (r: Result<bool>)
    ensures r.Ok? && r.value ==> forall i :: 0 <= i < |ms| ==> KeepsBlittable(s, ms[i])
    ensures r.Ok? && !r.value ==>
              exists i :: 0 <= i < |ms| && TypeResolves(s.translations, ms[i]) && !KeepsBlittable(s, ms[i])
    ensures r.Err? ==> exists i :: 0 <= i < |ms| && !TypeResolves(s.translations, ms[i])
    ensures AllTypesResolve(s.translations, ms) ==> r.Ok?
    decreases |ms|
  {
    if |ms| == 0 then Ok(true)
    else
      var cs :- GetTypeCsName(s.translations, ms[0].typeText);
      IndexOfPastStart(ms[0].text, '[');
      if IndexOf(ms[0].text, '[') > 0 then Ok(false)
      else if cs !in s.blittable then Ok(false)
      else
        var rest := IsStructBlittable(s, ms[1..]);
        assert forall i :: 0 < i < |ms| ==> ms[i] == ms[1..][i - 1];
        rest
  }

  /** A scan that stops at the first element satisfying `stop` reaches an
      element satisfying `target`: some element satisfies `target` and no
      element before it satisfies `stop`. */
  predicate ScanReaches<T>(xs: seq<T>, target: T -> bool, stop: T -> bool) {
    exists i :: 0 <= i < |xs| && target(xs[i]) && forall j :: 0 <= j < i ==> !stop(xs[j])
  }

  /** Peeling the first element off a scan. */
  lemma ScanReachesStep<T>(xs: seq<T>, target: T -> bool, stop: T -> bool)
    requires |xs| > 0
    ensures ScanReaches(xs, target, stop) <==>
              target(xs[0]) || (!stop(xs[0]) && ScanReaches(xs[1..], target, stop))
  {
    var tail := xs[1..];
    if target(xs[0]) {
      assert 0 <= 0 < |xs| && target(xs[0]);
    } else if !stop(xs[0]) {
      if ScanReaches(tail, target, stop) {
        var k :| 0 <= k < |tail| && target(tail[k]) && forall j :: 0 <= j < k ==> !stop(tail[j]);
        assert target(xs[k + 1]);
        assert forall j :: 0 <= j < k + 1 ==> !stop(xs[j]) by {
          assert forall j :: 0 < j <= k ==> xs[j] == tail[j - 1];
        }
      }
      if ScanReaches(xs, target, stop) {
        var i :| 0 <= i < |xs| && target(xs[i]) && forall j :: 0 <= j < i ==> !stop(xs[j]);
        assert target(tail[i - 1]);
        assert forall j :: 0 <= j < i - 1 ==> tail[j] == xs[j + 1];
      }
    }
  }

  /** Scans with pointwise equal tests reach the same elements. */
  lemma ScanReachesCongruent<T>(xs: seq<T>, target: T -> bool, stop: T -> bool, target': T -> bool, stop': T -> bool)
    requires forall x :: target(x) == target'(x) && stop(x) == stop'(x)
    ensures ScanReaches(xs, target, stop) == ScanReaches(xs, target', stop')
  {
  }

  /** The marshalling scan reaches a member whose type cannot be
      canonicalised: every member before it forces nothing, so the scan
      has not stopped yet. */
  predicate MarshallingScanFails(s: State, ms: seq<Member>) {
    ScanReaches(ms, m => !TypeResolves(s.translations, m), m => ForcesMarshalling(s, m))
  }

  /** The blittability scan reaches a member whose type cannot be
      canonicalised: every member before it keeps the structure blittable,
      so the scan has not stopped yet. */
  predicate BlittableScanFails(s: State, ms: seq<Member>) {
    ScanReaches(ms, m => !TypeResolves(s.translations, m), m => !KeepsBlittable(s, m))
  }

  /** One step of the marshalling scan, in terms of the first member. */
  lemma MarshallingScanStep(s: State, ms: seq<Member>)
    requires |ms| > 0
    ensures !TypeResolves(s.translations, ms[0]) ==> InspectStructureMembers(s, ms).Err?
    ensures ForcesMarshalling(s, ms[0]) ==> InspectStructureMembers(s, ms) == Ok(true)
    ensures TypeResolves(s.translations, ms[0]) && !ForcesMarshalling(s, ms[0]) ==>
              InspectStructureMembers(s, ms) == InspectStructureMembers(s, ms[1..])
  {
  }

  /** One step of the blittability scan, in terms of the first member. */
  lemma BlittableScanStep(s: State, ms: seq<Member>)
    requires |ms| > 0
    ensures !TypeResolves(s.translations, ms[0]) ==> IsStructBlittable(s, ms).Err?
    ensures TypeResolves(s.translations, ms[0]) && !KeepsBlittable(s, ms[0]) ==> IsStructBlittable(s, ms) == Ok(false)
    ensures KeepsBlittable(s, ms[0]) ==> IsStructBlittable(s, ms) == IsStructBlittable(s, ms[1..])
  {
    IndexOfPastStart(ms[0].text, '[');
  }

  /** `InspectStructureMembers` throws exactly when an unresolvable member
      type comes before the first member that forces marshalling; a member
      after that one is never canonicalised. */
  lemma {:induction false} MarshallingScanErrIff(s: State, ms: seq<Member>)
    ensures InspectStructureMembers(s, ms).Err? <==> MarshallingScanFails(s, ms)
    decreases |ms|
  {
    if |ms| > 0 {
      MarshallingScanStep(s, ms);
      ScanReachesStep(ms, m => !TypeResolves(s.translations, m), m => ForcesMarshalling(s, m));
      MarshallingScanErrIff(s, ms[1..]);
    }
  }

  /** `IsStructBlittable` throws exactly when an unresolvable member type
      comes before the first array or non-blittable member. A `*` does not
      stop the scan, so an unknown scalar after a pointer still throws. */
  lemma {:induction false} BlittableScanErrIff(s: State, ms: seq<Member>)
    ensures IsStructBlittable(s, ms).Err? <==> BlittableScanFails(s, ms)
    decreases |ms|
  {
    if |ms| > 0 {
      BlittableScanStep(s, ms);
      ScanReachesStep(ms, m => !TypeResolves(s.translations, m), m => !KeepsBlittable(s, m));
      BlittableScanErrIff(s, ms[1..]);
    }
  }

  /** A structure without members is always added. */
  lemma EmptyStructureIsBlittable(s: State)
    ensures IsStructBlittable(s, []) == Ok(true)
  {
  }

  // ---------------------------------------------------------------------------
  // Structures and unions
  // ---------------------------------------------------------------------------

  /** `InspectStructure`: canonicalise the raw name, store it in the
      translation table, record the structure with its marshalling verdict
      (computed against the structures recorded so far), then add the
      canonical name to the blittable set when every member allows it. */
  function InspectStructure(s: State, e: TypeEntry): (r: Result<State>)
    // the only failures are a name or a member type that cannot be canonicalised
    ensures r.Err? ==>
              !GetTypeCsName(s.translations, e.name).Ok? || !AllTypesResolve(s.translations, e.members)
    // both scans stop early, so a member after the deciding one may fail to resolve
    ensures GetTypeCsName(s.translations, e.name).Ok? && AllTypesResolve(s.translations, e.members) ==> r.Ok?
  {
    var cs :- GetTypeCsName(s.translations, e.name);
    var named := s.(translations := s.translations[e.name := cs]);
    TranslationStoreIsTransparent(s, named, e.name);
    MarshallingVerdictAfterStore(s, named, e.members);
    var needsMarshalling :- InspectStructureMembers(named, e.members);
    var recorded := named.(structures := s.structures[cs := StructInfo(e.name, needsMarshalling)]);
    BlittableVerdictAfterStore(s, recorded, e.members);
    var blittable :- IsStructBlittable(recorded, e.members);
    Ok(if blittable then recorded.(blittable := recorded.blittable + {cs}) else recorded)
  }

  /** `InspectStructure` throws exactly when the raw name cannot be
      canonicalised, or one of the two member scans reaches an unresolvable
      member type before it stops. Both scans are read against the state
      before the entry. */
  lemma InspectStructureErrIff(s: State, e: TypeEntry)
    ensures InspectStructure(s, e).Err? <==>
              || !GetTypeCsName(s.translations, e.name).Ok?
              || MarshallingScanFails(s, e.members)
              || BlittableScanFails(s, e.members)
  {
    if GetTypeCsName(s.translations, e.name).Ok? {
      var cs := GetTypeCsName(s.translations, e.name).value;
      var named := s.(translations := s.translations[e.name := cs]);
      TranslationStoreIsTransparent(s, named, e.name);
      MarshallingVerdictAfterStore(s, named, e.members);
      MarshallingScanErrIff(named, e.members);
      MarshallingFailureAfterStore(s, named, e.members);
      if InspectStructureMembers(named, e.members).Ok? {
        var recorded := named.(structures := s.structures[cs := StructInfo(e.name, InspectStructureMembers(named, e.members).value)]);
        BlittableVerdictAfterStore(s, recorded, e.members);
        BlittableScanErrIff(recorded, e.members);
        BlittableFailureAfterStore(s, recorded, e.members);
      }
    }
  }

  /** What a successful `InspectStructure` stores: the raw name against its
      own canonical form in the translation table, and the entry keyed by
      the canonical name with the raw name in it (a structure of the same
      canonical name is overwritten); the handles stay as they are. */
  lemma InspectStructureStores(s: State, e: TypeEntry)
    requires InspectStructure(s, e).Ok?
    ensures GetTypeCsName(s.translations, e.name).Ok?
    ensures var cs := GetTypeCsName(s.translations, e.name).value;
            var t := InspectStructure(s, e).value;
            && t.translations == s.translations[e.name := cs]
            && t.structures.Keys == s.structures.Keys + {cs}
            && t.structures[cs].name == e.name
            && (forall k :: k in s.structures && k != cs ==> t.structures[k] == s.structures[k])
            && t.handles == s.handles
  {
    var cs := GetTypeCsName(s.translations, e.name).value;
    var named := s.(translations := s.translations[e.name := cs]);
    var recorded := named.(structures := s.structures[cs := StructInfo(e.name, InspectStructureMembers(named, e.members).value)]);
    assert InspectStructure(s, e).value.(blittable := recorded.blittable) == recorded;
  }

  /** A successful `InspectStructure` changes no canonicalisation. */
  lemma InspectStructureKeepsNames(s: State, e: TypeEntry)
    requires InspectStructure(s, e).Ok?
    ensures forall n :: GetTypeCsName(InspectStructure(s, e).value.translations, n) == GetTypeCsName(s.translations, n)
  {
    var cs := GetTypeCsName(s.translations, e.name).value;
    var named := s.(translations := s.translations[e.name := cs]);
    TranslationStoreIsTransparent(s, named, e.name);
  }

  /** The verdicts of a successful `InspectStructure`, both read against the
      state before the entry: it needs marshalling iff some member forces
      it, and it joins the blittable set iff every member keeps it
      blittable. */
  lemma InspectStructureVerdicts(s: State, e: TypeEntry)
    requires InspectStructure(s, e).Ok?
    ensures GetTypeCsName(s.translations, e.name).Ok?
    ensures var cs := GetTypeCsName(s.translations, e.name).value;
            var t := InspectStructure(s, e).value;
            && cs in t.structures
            && (t.structures[cs].needsMarshalling <==>
                  exists i :: 0 <= i < |e.members| && ForcesMarshalling(s, e.members[i]))
            && t.blittable ==
                 (if forall i :: 0 <= i < |e.members| ==> KeepsBlittable(s, e.members[i])
                  then s.blittable + {cs} else s.blittable)
  {
    var cs := GetTypeCsName(s.translations, e.name).value;
    var named := s.(translations := s.translations[e.name := cs]);
    TranslationStoreIsTransparent(s, named, e.name);
    MarshallingVerdictAfterStore(s, named, e.members);
    var needsMarshalling := InspectStructureMembers(named, e.members).value;
    var recorded := named.(structures := s.structures[cs := StructInfo(e.name, needsMarshalling)]);
    BlittableVerdictAfterStore(s, recorded, e.members);
  }

  /** The marshalling scan run after the store gives the verdict the state
      before the store describes. */
  lemma MarshallingVerdictAfterStore(s: State, named: State, ms: seq<Member>)
    requires named.handles == s.handles && named.structures == s.structures
    requires forall n :: GetTypeCsName(named.translations, n) == GetTypeCsName(s.translations, n)
    ensures InspectStructureMembers(named, ms).Ok? ==>
              (InspectStructureMembers(named, ms).value <==> exists i :: 0 <= i < |ms| && ForcesMarshalling(s, ms[i]))
    ensures InspectStructureMembers(named, ms).Err? ==> !AllTypesResolve(s.translations, ms)
    ensures AllTypesResolve(s.translations, ms) ==> InspectStructureMembers(named, ms).Ok?
  {
    assert forall m :: TypeResolves(named.translations, m) == TypeResolves(s.translations, m);
    assert forall m :: ForcesMarshalling(named, m) == ForcesMarshalling(s, m);
  }

  /** The blittability scan run after the store and the record gives the
      verdict the state before them describes. */
  lemma BlittableVerdictAfterStore(s: State, recorded: State, ms: seq<Member>)
    requires recorded.blittable == s.blittable
    requires forall n :: GetTypeCsName(recorded.translations, n) == GetTypeCsName(s.translations, n)
    ensures IsStructBlittable(recorded, ms).Ok? ==>
              (IsStructBlittable(recorded, ms).value <==> forall i :: 0 <= i < |ms| ==> KeepsBlittable(s, ms[i]))
    ensures IsStructBlittable(recorded, ms).Err? ==> !AllTypesResolve(s.translations, ms)
    ensures AllTypesResolve(s.translations, ms) ==> IsStructBlittable(recorded, ms).Ok?
  {
    assert forall m :: TypeResolves(recorded.translations, m) == TypeResolves(s.translations, m);
    assert forall m :: KeepsBlittable(recorded, m) == KeepsBlittable(s, m);
  }

  /** The marshalling scan reaches an unresolvable member after the store
      exactly when it does before it. */
  lemma MarshallingFailureAfterStore(s: State, named: State, ms: seq<Member>)
    requires named.handles == s.handles && named.structures == s.structures
    requires forall n :: GetTypeCsName(named.translations, n) == GetTypeCsName(s.translations, n)
    ensures MarshallingScanFails(named, ms) == MarshallingScanFails(s, ms)
  {
    assert forall m :: TypeResolves(named.translations, m) == TypeResolves(s.translations, m);
    assert forall m :: ForcesMarshalling(named, m) == ForcesMarshalling(s, m);
    ScanReachesCongruent(ms, m => !TypeResolves(named.translations, m), m => ForcesMarshalling(named, m),
                         m => !TypeResolves(s.translations, m), m => ForcesMarshalling(s, m));
  }

  /** The blittability scan reaches an unresolvable member after the store
      and the record exactly when it does before them. */
  lemma BlittableFailureAfterStore(s: State, recorded: State, ms: seq<Member>)
    requires recorded.blittable == s.blittable
    requires forall n :: GetTypeCsName(recorded.translations, n) == GetTypeCsName(s.translations, n)
    ensures BlittableScanFails(recorded, ms) == BlittableScanFails(s, ms)
  {
    assert forall m :: TypeResolves(recorded.translations, m) == TypeResolves(s.translations, m);
    assert forall m :: KeepsBlittable(recorded, m) == KeepsBlittable(s, m);
    ScanReachesCongruent(ms, m => !TypeResolves(recorded.translations, m), m => !KeepsBlittable(recorded, m),
                         m => !TypeResolves(s.translations, m), m => !KeepsBlittable(s, m));
  }

  /** Storing a raw name's canonical form leaves every canonicalisation as
      it was. */
  lemma TranslationStoreIsTransparent(s: State, named: State, raw: string)
    requires GetTypeCsName(s.translations, raw).Ok?
    requires named == s.(translations := s.translations[raw := GetTypeCsName(s.translations, raw).value])
    ensures forall n :: GetTypeCsName(named.translations, n) == GetTypeCsName(s.translations, n)
  {
    forall n
      ensures GetTypeCsName(named.translations, n) == GetTypeCsName(s.translations, n)
    {
      StoringCanonicalNameIsTransparent(s.translations, raw, n);
    }
  }
}
