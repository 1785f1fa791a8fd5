/** The driver: `GenerateType` walks the `<type>` elements of one category in
    document order, and `Inspect` runs it three times: handles, then
    structures, then unions. */
module Driver {
  import opened Results
  import opened Naming
  import opened Descriptor
  import opened Catalog
  import opened Inspector

  /** The action `GenerateType` applies to each selected element. */
  datatype Pass = HandlePass | StructurePass

  function InspectEntry(pass: Pass, s: State, e: TypeEntry): Result<State> {
    match pass
    case HandlePass => InspectHandle(s, e)
    case StructurePass => InspectStructure(s, e)
  }

  /** What any run of inspections preserves between a state `s` and a later
      state `t`: the blittable set only grows, and only by names recorded as
      structures; no structure or handle disappears; and the translation
      table, although it grows, canonicalises every name as before. */
  ghost predicate Extends(s: State, t: State) {
    && s.blittable <= t.blittable
    && t.blittable - s.blittable <= t.structures.Keys
    && s.structures.Keys <= t.structures.Keys
    && s.handles.Keys <= t.handles.Keys
    && forall n :: GetTypeCsName(t.translations, n) == GetTypeCsName(s.translations, n)
  }

  /** The canonical name a `<type>` element is registered under. */
  function EntryCsName(translations: map<string, string>, e: TypeEntry): Result<string> {
    GetTypeCsName(translations, e.name)
  }

  /** Apply `pass` to every entry of `es`, in order, stopping at the first
      exception. */
  function Fold(s: State, es: seq<TypeEntry>, pass: Pass): Result<State>
    decreases |es|
  {
    if |es| == 0 then Ok(s)
    else
      var next :- InspectEntry(pass, s, es[0]);
      Fold(next, es[1..], pass)
  }

  /** A successful pass only extends the state. */
  lemma {:induction false} FoldExtends(s: State, es: seq<TypeEntry>, pass: Pass)
    requires Fold(s, es, pass).Ok?
    ensures Extends(s, Fold(s, es, pass).value)
    decreases |es|
  {
    if |es| > 0 {
      var next := InspectEntry(pass, s, es[0]).value;
      FoldExtends(next, es[1..], pass);
      EntryExtends(pass, s, es[0]);
      ExtendsTransitive(s, next, Fold(s, es, pass).value);
    }
  }

  /** One inspection only extends the state. */
  lemma EntryExtends(pass: Pass, s: State, e: TypeEntry)
    requires InspectEntry(pass, s, e).Ok?
    ensures Extends(s, InspectEntry(pass, s, e).value)
  {
    if pass == StructurePass {
      InspectStructureStores(s, e);
      InspectStructureKeepsNames(s, e);
      InspectStructureVerdicts(s, e);
    }
  }

  lemma ExtendsTransitive(a: State, b: State, c: State)
    requires Extends(a, b) && Extends(b, c)
    ensures Extends(a, c)
  {
  }

  /** The handle pass touches nothing but the handles. */
  lemma {:induction false} HandlePassFrame(s: State, hs: seq<TypeEntry>)
    requires Fold(s, hs, HandlePass).Ok?
    ensures Fold(s, hs, HandlePass).value.translations == s.translations
    ensures Fold(s, hs, HandlePass).value.structures == s.structures
    ensures Fold(s, hs, HandlePass).value.blittable == s.blittable
    decreases |hs|
  {
    if |hs| > 0 {
      HandlePassFrame(InspectHandle(s, hs[0]).value, hs[1..]);
    }
  }

  /** The structure pass never touches the handles. */
  lemma {:induction false} StructurePassFrame(s: State, es: seq<TypeEntry>)
    requires Fold(s, es, StructurePass).Ok?
    ensures Fold(s, es, StructurePass).value.handles == s.handles
    decreases |es|
  {
    if |es| > 0 {
      InspectStructureStores(s, es[0]);
      StructurePassFrame(InspectStructure(s, es[0]).value, es[1..]);
    }
  }

  /** A successful structure pass records every entry under its canonical
      name. */
  lemma {:induction false} StructurePassRecords(s: State, es: seq<TypeEntry>)
    requires Fold(s, es, StructurePass).Ok?
    ensures forall i :: 0 <= i < |es| ==>
              EntryCsName(s.translations, es[i]).Ok? && EntryCsName(s.translations, es[i]).value in Fold(s, es, StructurePass).value.structures
    decreases |es|
  {
    if |es| > 0 {
      var next := InspectStructure(s, es[0]).value;
      var t := Fold(s, es, StructurePass).value;
      InspectStructureStores(s, es[0]);
      InspectStructureKeepsNames(s, es[0]);
      StructurePassRecords(next, es[1..]);
      FoldExtends(next, es[1..], StructurePass);
      forall i | 0 <= i < |es|
        ensures EntryCsName(s.translations, es[i]).Ok? && EntryCsName(s.translations, es[i]).value in t.structures
      {
        if i > 0 {
          assert es[i] == es[1..][i - 1];
        }
      }
    }
  }

  /** The entries whose `category` attribute equals `category`, in document
      order. */
  function Filter(es: seq<TypeEntry>, category: string): (r: seq<TypeEntry>)
    ensures forall e :: e in r <==> e in es && e.category == category
    ensures |r| <= |es|
    decreases |es|
  {
    if |es| == 0 then []
    else if es[0].category == category then [es[0]] + Filter(es[1..], category)
    else Filter(es[1..], category)
  }

  /** Selecting by category keeps document order: it distributes over
      concatenation. */
  lemma {:induction false} FilterAppend(a: seq<TypeEntry>, b: seq<TypeEntry>, category: string)
    ensures Filter(a + b, category) == Filter(a, category) + Filter(b, category)
    decreases |a|
  {
    if |a| == 0 {
      assert a + b == b;
    } else {
      assert (a + b)[1..] == a[1..] + b;
      FilterAppend(a[1..], b, category);
    }
  }

  /** `GenerateType`: visit the elements of `es` in order and apply `pass`
      to those of the given category. */
  function GenerateType(s: State, es: seq<TypeEntry>, category: string, pass: Pass): (r: Result<State>)
    ensures r == Fold(s, Filter(es, category), pass)
    decreases |es|
  {
    if |es| == 0 then Ok(s)
    else if es[0].category == category then
      var next :- InspectEntry(pass, s, es[0]);
      assert ([es[0]] + Filter(es[1..], category))[1..] == Filter(es[1..], category);
      GenerateType(next, es[1..], category, pass)
    else GenerateType(s, es[1..], category, pass)
  }

  /** `Inspect`: handles, then structures, then unions, from a fresh
      inspector. */
  function Inspect(es: seq<TypeEntry>): (r: Result<State>)
    // the blittable set starts as the seed and gains only recorded structure names
    ensures r.Ok? ==> BlittableSeed <= r.value.blittable <= BlittableSeed + r.value.structures.Keys
    // the grown translation table canonicalises every name as the seed table does
    ensures r.Ok? ==> forall n :: GetTypeCsName(r.value.translations, n) == GetTypeCsName(SeedTranslations, n)
    // every structure and union is recorded under its canonical name
    ensures r.Ok? ==>
              forall e :: e in es && (e.category == StructCategory || e.category == UnionCategory) ==>
                EntryCsName(SeedTranslations, e).Ok? && EntryCsName(SeedTranslations, e).value in r.value.structures
  {
    var handled :- GenerateType(Initial, es, HandleCategory, HandlePass);
    var structured :- GenerateType(handled, es, StructCategory, StructurePass);
    var r := GenerateType(structured, es, UnionCategory, StructurePass);
    InspectPasses(es, handled, structured, r);
    r
  }

  /** The three passes of `Inspect` only extend the initial state. */
  lemma InspectPasses(es: seq<TypeEntry>, handled: State, structured: State, r: Result<State>)
    requires GenerateType(Initial, es, HandleCategory, HandlePass) == Ok(handled)
    requires GenerateType(handled, es, StructCategory, StructurePass) == Ok(structured)
    requires r == GenerateType(structured, es, UnionCategory, StructurePass)
    ensures r.Ok? ==> BlittableSeed <= r.value.blittable <= BlittableSeed + r.value.structures.Keys
    ensures r.Ok? ==> forall n :: GetTypeCsName(r.value.translations, n) == GetTypeCsName(SeedTranslations, n)
    ensures r.Ok? ==>
              forall e :: e in es && (e.category == StructCategory || e.category == UnionCategory) ==>
                EntryCsName(SeedTranslations, e).Ok? && EntryCsName(SeedTranslations, e).value in r.value.structures
  {
    if r.Ok? {
      FoldExtends(Initial, Filter(es, HandleCategory), HandlePass);
      FoldExtends(handled, Filter(es, StructCategory), StructurePass);
      FoldExtends(structured, Filter(es, UnionCategory), StructurePass);
      ExtendsTransitive(handled, structured, r.value);
      ExtendsTransitive(Initial, handled, r.value);
      InspectRecords(es, handled, structured, r.value);
    }
  }

  lemma InspectRecords(es: seq<TypeEntry>, handled: State, structured: State, t: State)
    requires GenerateType(handled, es, StructCategory, StructurePass) == Ok(structured)
    requires GenerateType(structured, es, UnionCategory, StructurePass) == Ok(t)
    requires forall n :: GetTypeCsName(handled.translations, n) == GetTypeCsName(SeedTranslations, n)
    ensures forall e :: e in es && (e.category == StructCategory || e.category == UnionCategory) ==>
              EntryCsName(SeedTranslations, e).Ok? && EntryCsName(SeedTranslations, e).value in t.structures
  {
    FoldExtends(handled, Filter(es, StructCategory), StructurePass);
    FoldExtends(structured, Filter(es, UnionCategory), StructurePass);
    PassRecords(es, StructCategory, handled, structured);
    PassRecords(es, UnionCategory, structured, t);
  }

  /** One pass of `GenerateType` over the structure pass records every
      entry of its category. */
  lemma PassRecords(es: seq<TypeEntry>, category: string, s: State, t: State)
    requires GenerateType(s, es, category, StructurePass) == Ok(t)
    ensures forall e :: e in es && e.category == category ==>
              EntryCsName(s.translations, e).Ok? && EntryCsName(s.translations, e).value in t.structures
  {
    var fs := Filter(es, category);
    StructurePassRecords(s, fs);
    forall e | e in es && e.category == category
      ensures EntryCsName(s.translations, e).Ok? && EntryCsName(s.translations, e).value in t.structures
    {
      var i :| 0 <= i < |fs| && fs[i] == e;
    }
  }

  // ---------------------------------------------------------------------------
  // Handles
  // ---------------------------------------------------------------------------

  /** The handle pass over `hs` can succeed from `s`: every name
      canonicalises, and the canonical names are new and pairwise distinct
      (the dictionary's `Add` throws on a repeated key). */
  ghost predicate HandlesFresh(s: State, hs: seq<TypeEntry>) {
    && (forall i :: 0 <= i < |hs| ==> EntryCsName(s.translations, hs[i]).Ok?)
    && (forall i :: 0 <= i < |hs| ==> EntryCsName(s.translations, hs[i]).value !in s.handles)
    && (forall i, j :: 0 <= i < j < |hs| ==>
          EntryCsName(s.translations, hs[i]).value != EntryCsName(s.translations, hs[j]).value)
  }

  /** `t` holds the handle `e` under its canonical name, with its underlying
      type text. */
  ghost predicate Registered(t: State, translations: map<string, string>, e: TypeEntry) {
    && EntryCsName(translations, e).Ok?
    && var cs := EntryCsName(translations, e).value;
       cs in t.handles && t.handles[cs] == HandleInfo(cs, e.underlying)
  }

  /** Freshness of `hs` from `s` is freshness of its tail from the state the
      first handle leads to; it fails when the first handle fails. */
  lemma HandlesFreshStep(s: State, hs: seq<TypeEntry>)
    requires |hs| > 0
    ensures InspectHandle(s, hs[0]).Err? ==> !HandlesFresh(s, hs)
    ensures InspectHandle(s, hs[0]).Ok? ==>
              (HandlesFresh(s, hs) <==> HandlesFresh(InspectHandle(s, hs[0]).value, hs[1..]))
  {
    var rest := hs[1..];
    assert forall i :: 0 < i < |hs| ==> hs[i] == rest[i - 1];
    var first := InspectHandle(s, hs[0]);
    if first.Ok? {
      var s1 := first.value;
      var cs := EntryCsName(s.translations, hs[0]).value;
      if HandlesFresh(s, hs) {
        forall i | 0 <= i < |rest|
          ensures EntryCsName(s1.translations, rest[i]).value !in s1.handles
        {
          assert EntryCsName(s.translations, hs[i + 1]).value != cs;
        }
      }
      if HandlesFresh(s1, rest) {
        forall i, j | 0 <= i < j < |hs|
          ensures EntryCsName(s.translations, hs[i]).value != EntryCsName(s.translations, hs[j]).value
        {
          if i == 0 {
            assert EntryCsName(s1.translations, rest[j - 1]).value !in s1.handles;
          }
        }
      }
    }
  }

  /** The handle pass succeeds exactly when the handles are fresh. */
  lemma {:induction false} HandlePassSucceedsIffFresh(s: State, hs: seq<TypeEntry>)
    ensures Fold(s, hs, HandlePass).Ok? <==> HandlesFresh(s, hs)
    decreases |hs|
  {
    if |hs| > 0 {
      HandlesFreshStep(s, hs);
      var first := InspectHandle(s, hs[0]);
      if first.Ok? {
        HandlePassSucceedsIffFresh(first.value, hs[1..]);
      }
    }
  }

  /** A successful handle pass registers each handle and keeps the handles
      registered before it. */
  lemma {:induction false} HandlePassRegistersEachHandle(s: State, hs: seq<TypeEntry>)
    requires Fold(s, hs, HandlePass).Ok?
    ensures forall i :: 0 <= i < |hs| ==> Registered(Fold(s, hs, HandlePass).value, s.translations, hs[i])
    ensures s.handles.Keys <= Fold(s, hs, HandlePass).value.handles.Keys
    ensures forall k :: k in s.handles ==> Fold(s, hs, HandlePass).value.handles[k] == s.handles[k]
    decreases |hs|
  {
    if |hs| > 0 {
      var rest := hs[1..];
      var s1 := InspectHandle(s, hs[0]).value;
      var t := Fold(s, hs, HandlePass).value;
      HandlePassRegistersEachHandle(s1, rest);
      forall i | 0 <= i < |hs|
        ensures Registered(t, s.translations, hs[i])
      {
        if i > 0 {
          assert hs[i] == rest[i - 1];
        }
      }
    }
  }

  /** A successful handle pass registers nothing but the handles it is
      given. */
  lemma {:induction false} HandlePassAddsNothingElse(s: State, hs: seq<TypeEntry>)
    requires Fold(s, hs, HandlePass).Ok?
    ensures forall k :: k in Fold(s, hs, HandlePass).value.handles ==>
              k in s.handles || exists i :: 0 <= i < |hs| && EntryCsName(s.translations, hs[i]) == Ok(k)
    decreases |hs|
  {
    if |hs| > 0 {
      var rest := hs[1..];
      var s1 := InspectHandle(s, hs[0]).value;
      var t := Fold(s, hs, HandlePass).value;
      HandlePassAddsNothingElse(s1, rest);
      forall k | k in t.handles
        ensures k in s.handles || exists i :: 0 <= i < |hs| && EntryCsName(s.translations, hs[i]) == Ok(k)
      {
        if k !in s1.handles {
          var i :| 0 <= i < |rest| && EntryCsName(s1.translations, rest[i]) == Ok(k);
          assert hs[i + 1] == rest[i];
        } else if k !in s.handles {
          assert EntryCsName(s.translations, hs[0]) == Ok(k);
        }
      }
    }
  }

  /** After a successful inspection every handle element is registered
      under its canonical name, the canonical handle names are pairwise
      distinct, and a repeated one makes the inspection fail. */
  lemma InspectRegistersHandles(es: seq<TypeEntry>)
    ensures Inspect(es).Ok? ==>
              && HandlesFresh(Initial, Filter(es, HandleCategory))
              && forall e :: e in es && e.category == HandleCategory ==>
                   Registered(Inspect(es).value, SeedTranslations, e)
    ensures !HandlesFresh(Initial, Filter(es, HandleCategory)) ==> Inspect(es).Err?
  {
    HandlePassSucceedsIffFresh(Initial, Filter(es, HandleCategory));
    if Inspect(es).Ok? {
      var handled := GenerateType(Initial, es, HandleCategory, HandlePass).value;
      var structured := GenerateType(handled, es, StructCategory, StructurePass).value;
      HandleElementsRegistered(es, handled);
      StructurePassFrame(handled, Filter(es, StructCategory));
      StructurePassFrame(structured, Filter(es, UnionCategory));
      assert Inspect(es).value.handles == handled.handles;
    }
  }

  /** The handle pass of `Inspect` registers every handle element. */
  lemma HandleElementsRegistered(es: seq<TypeEntry>, handled: State)
    requires GenerateType(Initial, es, HandleCategory, HandlePass) == Ok(handled)
    ensures forall e :: e in es && e.category == HandleCategory ==> Registered(handled, SeedTranslations, e)
  {
    var hs := Filter(es, HandleCategory);
    HandlePassRegistersEachHandle(Initial, hs);
    forall e | e in es && e.category == HandleCategory
      ensures Registered(handled, SeedTranslations, e)
    {
      var i :| 0 <= i < |hs| && hs[i] == e;
    }
  }
}
