/** Visibility promotion: every type that survives the name blacklist and the
    compiler-generated filter becomes public (nested-public when nested), and so do
    its methods and fields that survive the member filters; promoted fields may in
    passing be marked not-serialized and lose their init-only flag. */
module Promotion {
  import opened Metadata
  import opened TypeEnumeration

  const CompilerGeneratedAttributeName := "System.Runtime.CompilerServices.CompilerGeneratedAttribute"
  const SerializeFieldAttributeName := "UnityEngine.SerializeField"

  /** The constructor of System.NonSerializedAttribute that promotion attaches. */
  const NonSerializedConstructor := AttributeCtor("System.NonSerializedAttribute")

  /** Some attribute in `attributes` is of the type named `fullName`. */
  function HasAttribute(attributes: seq<CustomAttribute>, fullName: string): (r: bool)
    ensures r <==> exists i :: 0 <= i < |attributes| && attributes[i].attributeType == fullName
  {
    if attributes == [] then false
    else attributes[0].attributeType == fullName || HasAttribute(attributes[1..], fullName)
  }

  /** The compiler-generated marker test, done by comparing full names. */
  function CheckCompilerGeneratedAttribute(attributes: seq<CustomAttribute>): (r: bool)
    ensures r <==> exists a <- attributes :: a.attributeType == CompilerGeneratedAttributeName
  {
    HasAttribute(attributes, CompilerGeneratedAttributeName)
  }

  /** An attribute built from the constructor `ctor`. */
  function NewCustomAttribute(ctor: AttributeCtor): CustomAttribute {
    CustomAttribute(ctor.declaringType)
  }

  /** The constructor reference promotion works with: built exactly when
      NonSerialized marking is asked for. */
  function NonSerializedCtor(unityNonSerialized: bool): Option<AttributeCtor> {
    if unityNonSerialized then Some(NonSerializedConstructor) else None
  }

  /** A type that promotion changes: not blacklisted by name, and not compiler-generated
      unless compiler-generated types are included. */
  predicate TypeSelected(t: TypeDef, typeNameBlacklist: seq<string>, includeCompilerGenerated: bool) {
    t.name !in typeNameBlacklist &&
    (includeCompilerGenerated || !CheckCompilerGeneratedAttribute(t.attributes))
  }

  /** The visibility a promoted type gets. */
  function PromotedVisibility(t: TypeDef): TypeVisibility {
    if t.isNested then NestedPublic else TypeVisibility.Public
  }

  /** The member filter: with compiler-generated members excluded, a member with the
      marker attribute or compiler-controlled access is skipped. */
  predicate MemberSelected(includeCompilerGenerated: bool, attributes: seq<CustomAttribute>, access: MemberAccess) {
    includeCompilerGenerated ||
    (!CheckCompilerGeneratedAttribute(attributes) && access != CompilerControlled)
  }

  /** Some event of the type is named `name`. */
  predicate HasEventNamed(events: seq<EventDef>, name: string) {
    exists e <- events :: e.name == name
  }

  /** A field of a selected type that promotion changes: it passes the member filter and
      is not skipped as an event's backing field. */
  predicate FieldSelected(includeCompilerGenerated: bool, excludeCgEvents: bool,
                          events: seq<EventDef>, name: string, s: FieldState) {
    MemberSelected(includeCompilerGenerated, s.attributes, s.access) &&
    !(includeCompilerGenerated && excludeCgEvents && HasEventNamed(events, name))
  }

  /** What promotion does to a selected field: the NonSerialized decision is taken on the
      field as it was before promotion, then the field becomes public and, when asked,
      loses its init-only flag. */
  function PromoteField(s: FieldState, nonSerializedCtor: Option<AttributeCtor>, removeReadOnly: bool): FieldState {
    var marked :=
      if nonSerializedCtor.Some? && s.access != MemberAccess.Public &&
         !HasAttribute(s.attributes, SerializeFieldAttributeName)
      then s.(isNotSerialized := true,
              attributes := s.attributes + [NewCustomAttribute(nonSerializedCtor.value)])
      else s;
    var published := marked.(access := MemberAccess.Public);
    if removeReadOnly then published.(isInitOnly := false) else published
  }

  /** The field rules: the field ends public; it is init-only afterwards exactly when it
      was and init-only is not being removed; and one attribute built from the
      constructor is appended, with the not-serialized flag set, exactly when a
      constructor was built, the field was not public and it carried no SerializeField
      attribute. Otherwise its attributes and not-serialized flag are unchanged. */
  lemma PromoteFieldRules(s: FieldState, nonSerializedCtor: Option<AttributeCtor>, removeReadOnly: bool)
    ensures var r := PromoteField(s, nonSerializedCtor, removeReadOnly);
      var marks := nonSerializedCtor.Some? && s.access != MemberAccess.Public &&
                   (forall a <- s.attributes :: a.attributeType != SerializeFieldAttributeName);
      r.access == MemberAccess.Public &&
      r.isInitOnly == (s.isInitOnly && !removeReadOnly) &&
      (marks ==> r.isNotSerialized &&
                 r.attributes == s.attributes + [NewCustomAttribute(nonSerializedCtor.value)]) &&
      (!marks ==> r.isNotSerialized == s.isNotSerialized && r.attributes == s.attributes)
  {
  }

  /** Promoting a promoted field again changes nothing: in particular no second
      NonSerialized attribute is added. */
  lemma PromoteFieldIdempotent(s: FieldState, nonSerializedCtor: Option<AttributeCtor>, removeReadOnly: bool)
    ensures var once := PromoteField(s, nonSerializedCtor, removeReadOnly);
      PromoteField(once, nonSerializedCtor, removeReadOnly) == once
  {
  }

  /** A field promoted while the NonSerialized constructor exists, that was not public
      and had no SerializeField attribute, ends not-serialized and carries a
      System.NonSerializedAttribute, appended after the attributes it had. */
  lemma PromotionAppendsNonSerialized(s: FieldState, removeReadOnly: bool)
    requires s.access != MemberAccess.Public
    requires forall a <- s.attributes :: a.attributeType != SerializeFieldAttributeName
    ensures var r := PromoteField(s, Some(NonSerializedConstructor), removeReadOnly);
      r.isNotSerialized && HasAttribute(r.attributes, "System.NonSerializedAttribute") &&
      |r.attributes| == |s.attributes| + 1 && r.attributes[..|s.attributes|] == s.attributes
  {
    var r := PromoteField(s, Some(NonSerializedConstructor), removeReadOnly);
    assert r.attributes[|s.attributes|].attributeType == "System.NonSerializedAttribute";
  }

  lemma {:induction false} HasAttributeAppend(attributes: seq<CustomAttribute>, a: CustomAttribute, fullName: string)
    requires a.attributeType != fullName
    ensures HasAttribute(attributes + [a], fullName) == HasAttribute(attributes, fullName)
  {
    if HasAttribute(attributes + [a], fullName) {
      var i :| 0 <= i < |attributes + [a]| && (attributes + [a])[i].attributeType == fullName;
      assert i < |attributes| && attributes[i].attributeType == fullName;
    }
    if HasAttribute(attributes, fullName) {
      var i :| 0 <= i < |attributes| && attributes[i].attributeType == fullName;
      assert (attributes + [a])[i] == attributes[i];
    }
  }

  /** A promoted field is still selected by the filters that selected it, so meeting it
      again along another path leaves it as it is. */
  lemma PromotedFieldStaysSelected(includeCompilerGenerated: bool, excludeCgEvents: bool,
                                   events: seq<EventDef>, name: string, s: FieldState,
                                   removeReadOnly: bool, unityNonSerialized: bool)
    requires FieldSelected(includeCompilerGenerated, excludeCgEvents, events, name, s)
    ensures FieldSelected(includeCompilerGenerated, excludeCgEvents, events, name,
                          PromoteField(s, NonSerializedCtor(unityNonSerialized), removeReadOnly))
  {
    HasAttributeAppend(s.attributes, NewCustomAttribute(NonSerializedConstructor), CompilerGeneratedAttributeName);
  }

  /** With compiler-generated members excluded, a member that carries the marker or is
      compiler-controlled is never selected. */
  lemma CompilerGeneratedMembersSkipped(attributes: seq<CustomAttribute>, access: MemberAccess)
    requires CheckCompilerGeneratedAttribute(attributes) || access == CompilerControlled
    ensures !MemberSelected(false, attributes, access)
  {
  }

  /** `t` has been made public once the first `n` types of `ts` have been visited: it
      is one of them and passed both type filters. */
  ghost predicate TypePromotedIn(t: TypeDef, ts: seq<TypeDef>, n: nat,
                                 typeNameBlacklist: seq<string>, includeCompilerGenerated: bool)
    requires n <= |ts|
    decreases n
  {
    n > 0 &&
    (TypePromotedIn(t, ts, n - 1, typeNameBlacklist, includeCompilerGenerated) ||
     (ts[n - 1] == t && TypeSelected(t, typeNameBlacklist, includeCompilerGenerated)))
  }

  /** Once every type has been visited, a type of the sequence has been made public
      exactly when it passes both type filters. */
  lemma {:induction false} TypePromotedInMeans(t: TypeDef, ts: seq<TypeDef>, n: nat,
                                               typeNameBlacklist: seq<string>, includeCompilerGenerated: bool)
    requires n <= |ts|
    ensures TypePromotedIn(t, ts, n, typeNameBlacklist, includeCompilerGenerated) <==>
      (exists j | 0 <= j < n :: ts[j] == t) && TypeSelected(t, typeNameBlacklist, includeCompilerGenerated)
    decreases n
  {
    if n > 0 {
      TypePromotedInMeans(t, ts, n - 1, typeNameBlacklist, includeCompilerGenerated);
    }
  }

  /** `m` has been promoted once the first `n` types of `ts` have been visited: one of
      them passed the type filters and declares `m`, and `m` passes the member filter in
      state `access`. */
  ghost predicate MethodPromotedIn(m: MethodDef, access: MemberAccess, ts: seq<TypeDef>, n: nat,
                                   typeNameBlacklist: seq<string>, includeCompilerGenerated: bool)
    requires n <= |ts|
    decreases n
  {
    n > 0 &&
    (MethodPromotedIn(m, access, ts, n - 1, typeNameBlacklist, includeCompilerGenerated) ||
     (TypeSelected(ts[n - 1], typeNameBlacklist, includeCompilerGenerated) && m in ts[n - 1].methods &&
      MemberSelected(includeCompilerGenerated, m.attributes, access)))
  }

  /** `f` has been promoted once the first `n` types of `ts` have been visited: one of
      them passed the type filters, declares `f` and selects it, in state `s`, by its
      field filters. */
  ghost predicate FieldPromotedIn(f: FieldDef, s: FieldState, ts: seq<TypeDef>, n: nat,
                                  typeNameBlacklist: seq<string>, includeCompilerGenerated: bool,
                                  excludeCgEvents: bool)
    requires n <= |ts|
    decreases n
  {
    n > 0 &&
    (FieldPromotedIn(f, s, ts, n - 1, typeNameBlacklist, includeCompilerGenerated, excludeCgEvents) ||
     (TypeSelected(ts[n - 1], typeNameBlacklist, includeCompilerGenerated) && f in ts[n - 1].fields &&
      FieldSelected(includeCompilerGenerated, excludeCgEvents, ts[n - 1].events, f.name, s)))
  }

  /** A method is promoted exactly when some selected type among those visited declares
      it and it passes the member filter: the order of the visit does not matter. */
  lemma {:induction false} MethodPromotedInMeans(m: MethodDef, access: MemberAccess, ts: seq<TypeDef>, n: nat,
                                                 typeNameBlacklist: seq<string>, includeCompilerGenerated: bool)
    requires n <= |ts|
    ensures MethodPromotedIn(m, access, ts, n, typeNameBlacklist, includeCompilerGenerated) <==>
      exists j | 0 <= j < n :: TypeSelected(ts[j], typeNameBlacklist, includeCompilerGenerated) &&
        m in ts[j].methods && MemberSelected(includeCompilerGenerated, m.attributes, access)
    decreases n
  {
    if n > 0 {
      MethodPromotedInMeans(m, access, ts, n - 1, typeNameBlacklist, includeCompilerGenerated);
    }
  }

  /** A field is promoted exactly when some selected type among those visited declares it
      and selects it. */
  lemma {:induction false} FieldPromotedInMeans(f: FieldDef, s: FieldState, ts: seq<TypeDef>, n: nat,
                                                typeNameBlacklist: seq<string>, includeCompilerGenerated: bool,
                                                excludeCgEvents: bool)
    requires n <= |ts|
    ensures FieldPromotedIn(f, s, ts, n, typeNameBlacklist, includeCompilerGenerated, excludeCgEvents) <==>
      exists j | 0 <= j < n :: TypeSelected(ts[j], typeNameBlacklist, includeCompilerGenerated) &&
        f in ts[j].fields && FieldSelected(includeCompilerGenerated, excludeCgEvents, ts[j].events, f.name, s)
    decreases n
  {
    if n > 0 {
      FieldPromotedInMeans(f, s, ts, n - 1, typeNameBlacklist, includeCompilerGenerated, excludeCgEvents);
    }
  }

  /** What promotion does to a method, independent of the order of the visit: some
      type of `ts` that passes the type filters declares `m`, and `m` in state `access`
      passes the member filter. */
  ghost predicate MethodPromoted(m: MethodDef, access: MemberAccess, ts: seq<TypeDef>,
                                 typeNameBlacklist: seq<string>, includeCompilerGenerated: bool) {
    (exists t <- ts :: TypeSelected(t, typeNameBlacklist, includeCompilerGenerated) && m in t.methods) &&
    MemberSelected(includeCompilerGenerated, m.attributes, access)
  }

  /** What promotion does to a field: some type of `ts` that passes the type filters
      declares `f` and selects it, in state `s`, by its field filters. */
  ghost predicate FieldPromoted(f: FieldDef, s: FieldState, ts: seq<TypeDef>, typeNameBlacklist: seq<string>,
                                includeCompilerGenerated: bool, excludeCgEvents: bool) {
    exists t <- ts :: TypeSelected(t, typeNameBlacklist, includeCompilerGenerated) && f in t.fields &&
      FieldSelected(includeCompilerGenerated, excludeCgEvents, t.events, f.name, s)
  }

  /** Once every type has been visited, a method has been promoted exactly when
      `MethodPromoted` says so. */
  lemma MethodPromotedInAll(m: MethodDef, access: MemberAccess, ts: seq<TypeDef>,
                            typeNameBlacklist: seq<string>, includeCompilerGenerated: bool)
    ensures MethodPromotedIn(m, access, ts, |ts|, typeNameBlacklist, includeCompilerGenerated) ==
            MethodPromoted(m, access, ts, typeNameBlacklist, includeCompilerGenerated)
  {
    MethodPromotedInMeans(m, access, ts, |ts|, typeNameBlacklist, includeCompilerGenerated);
  }

  /** Once every type has been visited, a field has been promoted exactly when
      `FieldPromoted` says so. */
  lemma FieldPromotedInAll(f: FieldDef, s: FieldState, ts: seq<TypeDef>, typeNameBlacklist: seq<string>,
                           includeCompilerGenerated: bool, excludeCgEvents: bool)
    ensures FieldPromotedIn(f, s, ts, |ts|, typeNameBlacklist, includeCompilerGenerated, excludeCgEvents) ==
            FieldPromoted(f, s, ts, typeNameBlacklist, includeCompilerGenerated, excludeCgEvents)
  {
    FieldPromotedInMeans(f, s, ts, |ts|, typeNameBlacklist, includeCompilerGenerated, excludeCgEvents);
  }

  /** A type that fails the type filters promotes nothing. */
  lemma SkippedTypeStep(ts: seq<TypeDef>, n: nat, typeNameBlacklist: seq<string>, includeCompilerGenerated: bool,
                        excludeCgEvents: bool)
    requires n < |ts| && !TypeSelected(ts[n], typeNameBlacklist, includeCompilerGenerated)
    ensures forall u :: TypePromotedIn(u, ts, n + 1, typeNameBlacklist, includeCompilerGenerated) ==
                        TypePromotedIn(u, ts, n, typeNameBlacklist, includeCompilerGenerated)
    ensures forall m, access :: MethodPromotedIn(m, access, ts, n + 1, typeNameBlacklist, includeCompilerGenerated) ==
                                MethodPromotedIn(m, access, ts, n, typeNameBlacklist, includeCompilerGenerated)
    ensures forall f, s :: FieldPromotedIn(f, s, ts, n + 1, typeNameBlacklist, includeCompilerGenerated, excludeCgEvents) ==
                           FieldPromotedIn(f, s, ts, n, typeNameBlacklist, includeCompilerGenerated, excludeCgEvents)
  {
  }

  /** A method that no selected type among those visited declares is left as it was:
      in particular the methods of blacklisted types, and of compiler-generated types
      when those are excluded. */
  lemma SkippedTypesKeepMethods(m: MethodDef, access: MemberAccess, ts: seq<TypeDef>,
                                typeNameBlacklist: seq<string>, includeCompilerGenerated: bool)
    requires forall t <- ts :: m in t.methods ==> !TypeSelected(t, typeNameBlacklist, includeCompilerGenerated)
    ensures !MethodPromotedIn(m, access, ts, |ts|, typeNameBlacklist, includeCompilerGenerated)
  {
    MethodPromotedInMeans(m, access, ts, |ts|, typeNameBlacklist, includeCompilerGenerated);
  }

  /** A field that no selected type among those visited declares is left as it was. */
  lemma SkippedTypesKeepFields(f: FieldDef, s: FieldState, ts: seq<TypeDef>, typeNameBlacklist: seq<string>,
                               includeCompilerGenerated: bool, excludeCgEvents: bool)
    requires forall t <- ts :: f in t.fields ==> !TypeSelected(t, typeNameBlacklist, includeCompilerGenerated)
    ensures !FieldPromotedIn(f, s, ts, |ts|, typeNameBlacklist, includeCompilerGenerated, excludeCgEvents)
  {
    FieldPromotedInMeans(f, s, ts, |ts|, typeNameBlacklist, includeCompilerGenerated, excludeCgEvents);
  }

  /** The method loop of one selected type. */
  method PromoteMethods(t: TypeDef, includeCompilerGenerated: bool)
    modifies t.methods
    ensures forall m <- t.methods ::
      m.access == if MemberSelected(includeCompilerGenerated, m.attributes, old(m.access))
                  then MemberAccess.Public else old(m.access)
    ensures forall m <- t.methods :: m.Impl() == old(m.Impl())
  {
    for i := 0 to |t.methods|
      invariant forall m <- t.methods ::
        m.access == if (exists k | 0 <= k < i :: t.methods[k] == m) &&
                       MemberSelected(includeCompilerGenerated, m.attributes, old(m.access))
                    then MemberAccess.Public else old(m.access)
      invariant forall m <- t.methods :: m.Impl() == old(m.Impl())
    {
      var m := t.methods[i];
      if MemberSelected(includeCompilerGenerated, m.attributes, m.access) {
        m.access := MemberAccess.Public;
      }
    }
  }

  /** What one visit of the field loop does to a field named `name`, in state `s`, of
      a type declaring `events`. */
  function VisitedField(includeCompilerGenerated: bool, excludeCgEvents: bool, events: seq<EventDef>,
                        name: string, s: FieldState, nonSerializedCtor: Option<AttributeCtor>,
                        removeReadOnly: bool): FieldState {
    if FieldSelected(includeCompilerGenerated, excludeCgEvents, events, name, s)
    then PromoteField(s, nonSerializedCtor, removeReadOnly)
    else s
  }

  /** Visiting a field a second time changes nothing: a promoted field is still
      selected, and promoting it again is a no-op. */
  lemma VisitedFieldIdempotent(includeCompilerGenerated: bool, excludeCgEvents: bool, events: seq<EventDef>,
                               name: string, s: FieldState, nonSerializedCtor: Option<AttributeCtor>,
                               removeReadOnly: bool)
    requires nonSerializedCtor.Some? ==> nonSerializedCtor.value == NonSerializedConstructor
    ensures var once := VisitedField(includeCompilerGenerated, excludeCgEvents, events, name, s,
                                     nonSerializedCtor, removeReadOnly);
      VisitedField(includeCompilerGenerated, excludeCgEvents, events, name, once,
                   nonSerializedCtor, removeReadOnly) == once
  {
    if FieldSelected(includeCompilerGenerated, excludeCgEvents, events, name, s) {
      assert nonSerializedCtor == NonSerializedCtor(nonSerializedCtor.Some?);
      PromotedFieldStaysSelected(includeCompilerGenerated, excludeCgEvents, events, name, s,
                                 removeReadOnly, nonSerializedCtor.Some?);
      PromoteFieldIdempotent(s, nonSerializedCtor, removeReadOnly);
    }
  }

  /** Promotion only ever widens access: a field that was public is public after its
      visit, whether or not the filters select it, and a selected field always ends
      public. */
  lemma PromotionKeepsPublic(includeCompilerGenerated: bool, excludeCgEvents: bool, events: seq<EventDef>,
                             name: string, s: FieldState, nonSerializedCtor: Option<AttributeCtor>,
                             removeReadOnly: bool)
    ensures s.access == MemberAccess.Public ==>
      VisitedField(includeCompilerGenerated, excludeCgEvents, events, name, s,
                   nonSerializedCtor, removeReadOnly).access == MemberAccess.Public
    ensures FieldSelected(includeCompilerGenerated, excludeCgEvents, events, name, s) ==>
      VisitedField(includeCompilerGenerated, excludeCgEvents, events, name, s,
                   nonSerializedCtor, removeReadOnly).access == MemberAccess.Public
  {
  }

  /** The fields a visit leaves entirely unchanged: with compiler-generated members
      included and their event backing fields excluded, a field named like an event of
      its type; with compiler-generated members excluded, a field that carries the
      marker or is compiler-controlled. With init-only removal asked for, every field
      the visit promotes ends not init-only. */
  lemma VisitedFieldUntouched(includeCompilerGenerated: bool, excludeCgEvents: bool, events: seq<EventDef>,
                              name: string, s: FieldState, nonSerializedCtor: Option<AttributeCtor>,
                              removeReadOnly: bool)
    ensures includeCompilerGenerated && excludeCgEvents && (exists e <- events :: e.name == name) ==>
      VisitedField(includeCompilerGenerated, excludeCgEvents, events, name, s,
                   nonSerializedCtor, removeReadOnly) == s
    ensures !includeCompilerGenerated &&
            ((exists a <- s.attributes :: a.attributeType == CompilerGeneratedAttributeName) ||
             s.access == CompilerControlled) ==>
      VisitedField(includeCompilerGenerated, excludeCgEvents, events, name, s,
                   nonSerializedCtor, removeReadOnly) == s
    ensures removeReadOnly && FieldSelected(includeCompilerGenerated, excludeCgEvents, events, name, s) ==>
      !VisitedField(includeCompilerGenerated, excludeCgEvents, events, name, s,
                    nonSerializedCtor, removeReadOnly).isInitOnly
  {
  }

  /** One iteration of the field loop: a field that fails the member filter, or that
      shares its name with an event of its type when compiler-generated members are
      included but their event backing fields are excluded, is left alone; any other
      field is promoted. */
  method VisitField(f: FieldDef, events: seq<EventDef>, includeCompilerGenerated: bool, excludeCgEvents: bool,
                    removeReadOnly: bool, nonSerializedAttributeConstructor: Option<AttributeCtor>)
    modifies f
    ensures f.State() == VisitedField(includeCompilerGenerated, excludeCgEvents, events, f.name, old(f.State()),
                                      nonSerializedAttributeConstructor, removeReadOnly)
  {
    if !MemberSelected(includeCompilerGenerated, f.attributes, f.access) {
      return;
    }
    if includeCompilerGenerated && excludeCgEvents {
      if HasEventNamed(events, f.name) {
        return;
      }
    }
    if nonSerializedAttributeConstructor.Some? && f.access != MemberAccess.Public &&
       !HasAttribute(f.attributes, SerializeFieldAttributeName) {
      f.isNotSerialized := true;
      f.attributes := f.attributes + [NewCustomAttribute(nonSerializedAttributeConstructor.value)];
    }
    f.access := MemberAccess.Public;
    if removeReadOnly {
      f.isInitOnly := false;
    }
  }

  /** The field loop of one selected type. */
  method PromoteFields(t: TypeDef, includeCompilerGenerated: bool, excludeCgEvents: bool,
                       removeReadOnly: bool, nonSerializedAttributeConstructor: Option<AttributeCtor>)
    requires nonSerializedAttributeConstructor.Some? ==> nonSerializedAttributeConstructor.value == NonSerializedConstructor
    modifies t.fields
    ensures forall f <- t.fields ::
      f.State() == VisitedField(includeCompilerGenerated, excludeCgEvents, t.events, f.name, old(f.State()),
                                nonSerializedAttributeConstructor, removeReadOnly)
  {
    for i := 0 to |t.fields|
      invariant forall k | 0 <= k < i ::
        t.fields[k].State() == VisitedField(includeCompilerGenerated, excludeCgEvents, t.events, t.fields[k].name,
                                            old(t.fields[k].State()), nonSerializedAttributeConstructor, removeReadOnly)
      invariant forall k | i <= k < |t.fields| ::
        t.fields[k].State() == old(t.fields[k].State()) ||
        t.fields[k].State() == VisitedField(includeCompilerGenerated, excludeCgEvents, t.events, t.fields[k].name,
                                            old(t.fields[k].State()), nonSerializedAttributeConstructor, removeReadOnly)
    {
      VisitField(t.fields[i], t.events, includeCompilerGenerated, excludeCgEvents, removeReadOnly,
                 nonSerializedAttributeConstructor);
      VisitedFieldIdempotent(includeCompilerGenerated, excludeCgEvents, t.events, t.fields[i].name,
                             old(t.fields[i].State()), nonSerializedAttributeConstructor, removeReadOnly);
    }
  }

  /** The types, methods and fields promotion may change, as they were before it began:
      the visibility of each type, the access of each method of `methods` and the state
      of each field of `fields`. */
  datatype Snapshot = Snapshot(
    visibility: map<TypeDef, TypeVisibility>,
    methods: set<MethodDef>,
    access: map<MethodDef, MemberAccess>,
    fields: set<FieldDef>,
    state: map<FieldDef, FieldState>)

  /** Visiting the `n`-th type of `ts` when it fails the type filters: promotion
      leaves the graph as it was, which is also its state after `n + 1` types. */
  lemma SkipType(ts: seq<TypeDef>, n: nat, typeNameBlacklist: seq<string>, includeCompilerGenerated: bool,
                 excludeCgEvents: bool, removeReadOnly: bool, unityNonSerialized: bool,
                 pre: Snapshot)
    requires n < |ts| && !TypeSelected(ts[n], typeNameBlacklist, includeCompilerGenerated)
    requires forall u <- ts :: u in pre.visibility
    requires forall u <- ts ::
      u.visibility == if TypePromotedIn(u, ts, n, typeNameBlacklist, includeCompilerGenerated)
                      then PromotedVisibility(u) else pre.visibility[u]
    requires forall m <- pre.methods :: m in pre.access
    requires forall m <- pre.methods ::
      m.access == if MethodPromotedIn(m, pre.access[m], ts, n, typeNameBlacklist, includeCompilerGenerated)
                  then MemberAccess.Public else pre.access[m]
    requires forall f <- pre.fields :: f in pre.state
    requires forall f <- pre.fields ::
      f.State() == if FieldPromotedIn(f, pre.state[f], ts, n, typeNameBlacklist, includeCompilerGenerated,
                                      excludeCgEvents)
                   then PromoteField(pre.state[f], NonSerializedCtor(unityNonSerialized), removeReadOnly)
                   else pre.state[f]
    ensures forall u <- ts ::
      u.visibility == if TypePromotedIn(u, ts, n + 1, typeNameBlacklist, includeCompilerGenerated)
                      then PromotedVisibility(u) else pre.visibility[u]
    ensures forall m <- pre.methods ::
      m.access == if MethodPromotedIn(m, pre.access[m], ts, n + 1, typeNameBlacklist, includeCompilerGenerated)
                  then MemberAccess.Public else pre.access[m]
    ensures forall f <- pre.fields ::
      f.State() == if FieldPromotedIn(f, pre.state[f], ts, n + 1, typeNameBlacklist, includeCompilerGenerated,
                                      excludeCgEvents)
                   then PromoteField(pre.state[f], NonSerializedCtor(unityNonSerialized), removeReadOnly)
                   else pre.state[f]
  {
    SkippedTypeStep(ts, n, typeNameBlacklist, includeCompilerGenerated, excludeCgEvents);
  }

  /** The body of the type loop for the `n`-th type of `ts`, which passed both type
      filters: the type becomes public, then its methods and then its fields are
      promoted. Seen from the whole enumeration: if the types of `ts` and the methods
      and fields of `pre` are as promotion leaves them after the first `n` types, then
      afterwards they are as it leaves them after `n + 1`; `pre` holds them as they
      were before promotion began. */
  method PromoteType(t: TypeDef, includeCompilerGenerated: bool, excludeCgEvents: bool,
                     removeReadOnly: bool, nonSerializedAttributeConstructor: Option<AttributeCtor>,
                     ghost ts: seq<TypeDef>, ghost n: nat, ghost typeNameBlacklist: seq<string>,
                     ghost unityNonSerialized: bool, ghost pre: Snapshot)
    requires nonSerializedAttributeConstructor == NonSerializedCtor(unityNonSerialized)
    requires n < |ts| && ts[n] == t && TypeSelected(t, typeNameBlacklist, includeCompilerGenerated)
    requires forall m <- t.methods :: m in pre.methods
    requires forall f <- t.fields :: f in pre.fields
    requires forall u <- ts :: u in pre.visibility
    requires forall u <- ts ::
      u.visibility == if TypePromotedIn(u, ts, n, typeNameBlacklist, includeCompilerGenerated)
                      then PromotedVisibility(u) else pre.visibility[u]
    requires forall m <- pre.methods :: m in pre.access
    requires forall m <- pre.methods ::
      m.access == if MethodPromotedIn(m, pre.access[m], ts, n, typeNameBlacklist, includeCompilerGenerated)
                  then MemberAccess.Public else pre.access[m]
    requires forall f <- pre.fields :: f in pre.state
    requires forall f <- pre.fields ::
      f.State() == if FieldPromotedIn(f, pre.state[f], ts, n, typeNameBlacklist, includeCompilerGenerated,
                                      excludeCgEvents)
                   then PromoteField(pre.state[f], NonSerializedCtor(unityNonSerialized), removeReadOnly)
                   else pre.state[f]
    modifies t, t.methods, t.fields
    ensures forall u <- ts ::
      u.visibility == if TypePromotedIn(u, ts, n + 1, typeNameBlacklist, includeCompilerGenerated)
                      then PromotedVisibility(u) else pre.visibility[u]
    ensures forall m <- pre.methods ::
      m.access == if MethodPromotedIn(m, pre.access[m], ts, n + 1, typeNameBlacklist, includeCompilerGenerated)
                  then MemberAccess.Public else pre.access[m]
    ensures forall m <- pre.methods :: m.Impl() == old(m.Impl())
    ensures forall f <- pre.fields ::
      f.State() == if FieldPromotedIn(f, pre.state[f], ts, n + 1, typeNameBlacklist, includeCompilerGenerated,
                                      excludeCgEvents)
                   then PromoteField(pre.state[f], NonSerializedCtor(unityNonSerialized), removeReadOnly)
                   else pre.state[f]
  {
    if t.isNested {
      t.visibility := NestedPublic;
    } else {
      t.visibility := TypeVisibility.Public;
    }
    PromoteMethods(t, includeCompilerGenerated);
    PromoteFields(t, includeCompilerGenerated, excludeCgEvents, removeReadOnly, nonSerializedAttributeConstructor);
    forall f <- pre.fields | FieldPromotedIn(f, pre.state[f], ts, n, typeNameBlacklist, includeCompilerGenerated, excludeCgEvents)
      ensures PromoteField(old(f.State()), NonSerializedCtor(unityNonSerialized), removeReadOnly) == old(f.State())
    {
      PromoteFieldIdempotent(pre.state[f], NonSerializedCtor(unityNonSerialized), removeReadOnly);
    }
  }

  /** One iteration of the type loop: the `i`-th enumerated type is skipped when its
      name is blacklisted or, unless compiler-generated types are included, when it
      carries the CompilerGenerated attribute; otherwise it is promoted. */
  method VisitType(types: seq<TypeDef>, i: nat, typeNameBlacklist: seq<string>, includeCompilerGenerated: bool,
                   excludeCgEvents: bool, removeReadOnly: bool, nonSerializedAttributeConstructor: Option<AttributeCtor>,
                   ghost unityNonSerialized: bool, ghost pre: Snapshot)
    requires nonSerializedAttributeConstructor == NonSerializedCtor(unityNonSerialized)
    requires i < |types|
    requires forall m <- types[i].methods :: m in pre.methods
    requires forall f <- types[i].fields :: f in pre.fields
    requires forall u <- types :: u in pre.visibility
    requires forall u <- types ::
      u.visibility == if TypePromotedIn(u, types, i, typeNameBlacklist, includeCompilerGenerated)
                      then PromotedVisibility(u) else pre.visibility[u]
    requires forall m <- pre.methods :: m in pre.access
    requires forall m <- pre.methods ::
      m.access == if MethodPromotedIn(m, pre.access[m], types, i, typeNameBlacklist, includeCompilerGenerated)
                  then MemberAccess.Public else pre.access[m]
    requires forall f <- pre.fields :: f in pre.state
    requires forall f <- pre.fields ::
      f.State() == if FieldPromotedIn(f, pre.state[f], types, i, typeNameBlacklist, includeCompilerGenerated,
                                      excludeCgEvents)
                   then PromoteField(pre.state[f], NonSerializedCtor(unityNonSerialized), removeReadOnly)
                   else pre.state[f]
    modifies types[i], types[i].methods, types[i].fields
    ensures forall u <- types ::
      u.visibility == if TypePromotedIn(u, types, i + 1, typeNameBlacklist, includeCompilerGenerated)
                      then PromotedVisibility(u) else pre.visibility[u]
    ensures forall m <- pre.methods ::
      m.access == if MethodPromotedIn(m, pre.access[m], types, i + 1, typeNameBlacklist, includeCompilerGenerated)
                  then MemberAccess.Public else pre.access[m]
    ensures forall m <- pre.methods :: m.Impl() == old(m.Impl())
    ensures forall f <- pre.fields ::
      f.State() == if FieldPromotedIn(f, pre.state[f], types, i + 1, typeNameBlacklist, includeCompilerGenerated,
                                      excludeCgEvents)
                   then PromoteField(pre.state[f], NonSerializedCtor(unityNonSerialized), removeReadOnly)
                   else pre.state[f]
  {
    var t := types[i];
    if t.name in typeNameBlacklist {
      SkipType(types, i, typeNameBlacklist, includeCompilerGenerated, excludeCgEvents, removeReadOnly,
               unityNonSerialized, pre);
      return;
    }
    if !includeCompilerGenerated && CheckCompilerGeneratedAttribute(t.attributes) {
      SkipType(types, i, typeNameBlacklist, includeCompilerGenerated, excludeCgEvents, removeReadOnly,
               unityNonSerialized, pre);
      return;
    }
    PromoteType(t, includeCompilerGenerated, excludeCgEvents, removeReadOnly, nonSerializedAttributeConstructor,
                types, i, typeNameBlacklist, unityNonSerialized, pre);
  }

  /** The type loop of `MakePublic` over the enumerated types `types`, with the
      constructor reference of the NonSerialized attribute already resolved; `pre`
      records every type, method and field of `types` as it was before the loop. */
  method PromoteTypes(types: seq<TypeDef>, typeNameBlacklist: seq<string>, includeCompilerGenerated: bool,
                      excludeCgEvents: bool, removeReadOnly: bool,
                      nonSerializedAttributeConstructor: Option<AttributeCtor>, ghost unityNonSerialized: bool,
                      ghost pre: Snapshot)
    requires nonSerializedAttributeConstructor == NonSerializedCtor(unityNonSerialized)
    requires forall t <- types :: forall m <- t.methods :: m in pre.methods
    requires forall t <- types :: forall f <- t.fields :: f in pre.fields
    requires forall t <- types :: t in pre.visibility && t.visibility == pre.visibility[t]
    requires forall m <- pre.methods :: m in pre.access && m.access == pre.access[m]
    requires forall f <- pre.fields :: f in pre.state && f.State() == pre.state[f]
    modifies set t | t in types
    modifies pre.methods, pre.fields
    ensures forall t <- types ::
      t.visibility == if TypePromotedIn(t, types, |types|, typeNameBlacklist, includeCompilerGenerated)
                      then PromotedVisibility(t) else pre.visibility[t]
    ensures forall m <- pre.methods ::
      m.access == if MethodPromotedIn(m, pre.access[m], types, |types|, typeNameBlacklist, includeCompilerGenerated)
                  then MemberAccess.Public else pre.access[m]
    ensures forall m <- pre.methods :: m.Impl() == old(m.Impl())
    ensures forall f <- pre.fields ::
      f.State() == if FieldPromotedIn(f, pre.state[f], types, |types|, typeNameBlacklist,
                                      includeCompilerGenerated, excludeCgEvents)
                   then PromoteField(pre.state[f], NonSerializedCtor(unityNonSerialized), removeReadOnly)
                   else pre.state[f]
  {
    for i := 0 to |types|
      invariant forall t <- types ::
        t.visibility == if TypePromotedIn(t, types, i, typeNameBlacklist, includeCompilerGenerated)
                        then PromotedVisibility(t) else pre.visibility[t]
      invariant forall m <- pre.methods ::
        m.access == if MethodPromotedIn(m, pre.access[m], types, i, typeNameBlacklist, includeCompilerGenerated)
                    then MemberAccess.Public else pre.access[m]
      invariant forall m <- pre.methods :: m.Impl() == old(m.Impl())
      invariant forall f <- pre.fields ::
        f.State() == if FieldPromotedIn(f, pre.state[f], types, i, typeNameBlacklist,
                                        includeCompilerGenerated, excludeCgEvents)
                     then PromoteField(pre.state[f], NonSerializedCtor(unityNonSerialized), removeReadOnly)
                     else pre.state[f]
    {
      VisitType(types, i, typeNameBlacklist, includeCompilerGenerated, excludeCgEvents, removeReadOnly,
                nonSerializedAttributeConstructor, unityNonSerialized, pre);
    }
  }

  method MakePublic(assembly: AssemblyDef, typeNameBlacklist: seq<string>, includeCompilerGenerated: bool,
                    excludeCgEvents: bool, removeReadOnly: bool, unityNonSerialized: bool)
    requires Forest(assembly.mainModule.types)
    modifies set t | t in AllTypes(assembly.mainModule)
    modifies MethodsOf(AllTypes(assembly.mainModule)), FieldsOf(AllTypes(assembly.mainModule))
    ensures forall t <- AllTypes(assembly.mainModule) ::
      t.visibility == if TypeSelected(t, typeNameBlacklist, includeCompilerGenerated)
                      then PromotedVisibility(t) else old(t.visibility)
    ensures forall m <- MethodsOf(AllTypes(assembly.mainModule)) ::
      m.access == if MethodPromoted(m, old(m.access), AllTypes(assembly.mainModule), typeNameBlacklist,
                                    includeCompilerGenerated)
                  then MemberAccess.Public else old(m.access)
    ensures forall m <- MethodsOf(AllTypes(assembly.mainModule)) :: m.Impl() == old(m.Impl())
    ensures forall f <- FieldsOf(AllTypes(assembly.mainModule)) ::
      f.State() == if FieldPromoted(f, old(f.State()), AllTypes(assembly.mainModule), typeNameBlacklist,
                                    includeCompilerGenerated, excludeCgEvents)
                   then PromoteField(old(f.State()), NonSerializedCtor(unityNonSerialized), removeReadOnly)
                   else old(f.State())
  {
    var nonSerializedAttributeConstructor: Option<AttributeCtor> := None;
    if unityNonSerialized {
      nonSerializedAttributeConstructor := Some(NonSerializedConstructor);
    }
    AllTypesAllocated(assembly.mainModule);
    var types := GetAllTypeDefinitions(assembly);
    ghost var ms := MethodsOf(types);
    ghost var fs := FieldsOf(types);
    ghost var visibility0: map<TypeDef, TypeVisibility> := map t: TypeDef | t in types :: t.visibility;
    ghost var access0: map<MethodDef, MemberAccess> := map m: MethodDef | m in ms :: m.access;
    ghost var state0: map<FieldDef, FieldState> := map f: FieldDef | f in fs :: f.State();
    ghost var pre := Snapshot(visibility0, ms, access0, fs, state0);
    PromoteTypes(types, typeNameBlacklist, includeCompilerGenerated, excludeCgEvents, removeReadOnly,
                 nonSerializedAttributeConstructor, unityNonSerialized, pre);
    forall t <- types
      ensures TypePromotedIn(t, types, |types|, typeNameBlacklist, includeCompilerGenerated) ==
              TypeSelected(t, typeNameBlacklist, includeCompilerGenerated)
    {
      TypePromotedInMeans(t, types, |types|, typeNameBlacklist, includeCompilerGenerated);
    }
    forall m <- ms
      ensures MethodPromotedIn(m, access0[m], types, |types|, typeNameBlacklist, includeCompilerGenerated) ==
              MethodPromoted(m, access0[m], types, typeNameBlacklist, includeCompilerGenerated)
    {
      MethodPromotedInAll(m, access0[m], types, typeNameBlacklist, includeCompilerGenerated);
    }
    forall f <- fs
      ensures FieldPromotedIn(f, state0[f], types, |types|, typeNameBlacklist, includeCompilerGenerated,
                              excludeCgEvents) ==
              FieldPromoted(f, state0[f], types, typeNameBlacklist, includeCompilerGenerated, excludeCgEvents)
    {
      FieldPromotedInAll(f, state0[f], types, typeNameBlacklist, includeCompilerGenerated, excludeCgEvents);
    }
  }
}
