/**
 The module's entry point: resolve the mount accessor and the canonical id,
 then dispatch on the desired state to the update, create or delete helper.
 */
module Dispatch {
  import opened Wrappers
  import opened Remote
  import opened Matcher
  import opened EntityAlias

  /** The parameters the entry point reads; absent optional parameters are `None`. */
  datatype Params = Params(
    name: Option<string>,
    aliasId: Option<string>,
    entityName: Option<string>,
    canonicalId: Option<string>,
    mountAccessor: Option<string>,
    authtype: string,
    state: string)

  const Present: string := "present"
  const Absent: string := "absent"

  /** The mount accessor and canonical id every branch of the dispatch works with. */
  datatype Target = Target(mount: string, canonicalId: string)

  /** The path under which an auth method of type `authtype` is mounted by default. */
  function MountPath(authtype: string): (path: string)
    ensures |path| == |authtype| + 1 && path[..|authtype|] == authtype && path[|authtype|] == '/'
  {
    authtype + "/"
  }

  /** An explicit accessor wins; otherwise the accessor of the default mount path of `authtype`. */
  function ResolveMount(p: Params, d: Directory): (r: Result<string, Error>)
    ensures p.mountAccessor.Some? ==> r == Success(p.mountAccessor.value)
    ensures p.mountAccessor.None? ==>
              if MountPath(p.authtype) in d.mounts then r == Success(d.mounts[MountPath(p.authtype)])
              else r == Failure(AuthMethodNotFound)
  {
    match p.mountAccessor
    case Some(m) => Success(m)
    case None =>
      var path := MountPath(p.authtype);
      if path in d.mounts then Success(d.mounts[path]) else Failure(AuthMethodNotFound)
  }

  /** An explicit canonical id wins; otherwise the id of the entity named `entityName`. */
  function ResolveCanonical(p: Params, d: Directory): (r: Result<string, Error>)
    ensures p.canonicalId.Some? ==> r == Success(p.canonicalId.value)
    ensures p.canonicalId.None? && p.entityName.None? ==> r == Failure(NoEntityReference)
    ensures p.canonicalId.None? && p.entityName.Some? ==>
              if p.entityName.value in d.entities then r == Success(d.entities[p.entityName.value])
              else r == Failure(NoSuchEntity)
  {
    match p.canonicalId
    case Some(c) => Success(c)
    case None =>
      match p.entityName
      case None => Failure(NoEntityReference)
      case Some(n) => if n in d.entities then Success(d.entities[n]) else Failure(NoSuchEntity)
  }

  /** The mount is resolved first, so its failure is reported even when the entity is also missing. */
  function Resolve(p: Params, d: Directory): (r: Result<Target, Error>)
    ensures ResolveMount(p, d).Failure? ==> r == Failure(ResolveMount(p, d).error)
    ensures ResolveMount(p, d).Success? && ResolveCanonical(p, d).Failure? ==>
              r == Failure(ResolveCanonical(p, d).error)
    ensures r.Success? <==> ResolveMount(p, d).Success? && ResolveCanonical(p, d).Success?
    ensures r.Success? ==>
              r.value == Target(ResolveMount(p, d).value, ResolveCanonical(p, d).value)
  {
    match ResolveMount(p, d)
    case Failure(e) => Failure(e)
    case Success(m) =>
      match ResolveCanonical(p, d)
      case Failure(e) => Failure(e)
      case Success(c) => Success(Target(m, c))
  }

  /**
   One invocation as the module is written. Resolution failures come before
   any mutation, whatever the state. A present state with an alias id reaches
   the update helper without its name argument, which fails before any call.
   */
  function Reconcile(p: Params, d: Directory): (r: Run)
    ensures SingleStep(d, r)
    ensures Resolve(p, d).Failure? ==> r == Run(Failed(Resolve(p, d).error), [], d)
    ensures p.state != Present && p.state != Absent ==>
              r.outcome.Failed? && r.calls == [] && r.after == d
    ensures p.state == Present && p.aliasId.Some? ==>
              r.outcome.Failed? && r.calls == [] && r.after == d
    ensures p.state == Present && p.aliasId.None? && p.name.None? ==>
              r.outcome.Failed? && r.calls == []
    ensures p.state == Present && Resolve(p, d).Success? && p.aliasId.None? && p.name.Some? ==>
              r == Create(d, p.name.value, Resolve(p, d).value.canonicalId, Resolve(p, d).value.mount)
    ensures p.state == Absent && Resolve(p, d).Success? ==>
              r == Delete(d, p.aliasId, p.name, Resolve(p, d).value.mount, Resolve(p, d).value.canonicalId)
  {
    match Resolve(p, d)
    case Failure(e) => Run(Failed(e), [], d)
    case Success(t) =>
      if p.state == Present then
        if p.aliasId.Some? then Run(Failed(UpdateMissingName), [], d)
        else if p.name.Some? then Create(d, p.name.value, t.canonicalId, t.mount)
        else Run(Failed(NoAliasReference), [], d)
      else if p.state == Absent then Delete(d, p.aliasId, p.name, t.mount, t.canonicalId)
      else Run(Failed(UnknownState), [], d)
  }

  /**
   The invocation as evidently intended: a present state with an alias id and
   a name goes through the update helper with that name. Every other input is
   handled exactly as written.
   */
  function ReconcileIntended(p: Params, d: Directory): (r: Run)
    ensures SingleStep(d, r)
    ensures !(p.state == Present && p.aliasId.Some? && p.name.Some?) ==> r == Reconcile(p, d)
    ensures p.state == Present && p.aliasId.Some? && p.name.Some? && Resolve(p, d).Success? ==>
              r == Update(d, p.aliasId.value, p.name.value, Resolve(p, d).value.canonicalId, Resolve(p, d).value.mount)
  {
    match Resolve(p, d)
    case Success(t) =>
      if p.state == Present && p.aliasId.Some? && p.name.Some? then
        Update(d, p.aliasId.value, p.name.value, t.canonicalId, t.mount)
      else Reconcile(p, d)
    case Failure(_) => Reconcile(p, d)
  }

  /** As written, a present state with an alias id never updates anything, whatever the directory holds. */
  lemma PresentByIdFails(p: Params, d: Directory)
    requires p.state == Present && p.aliasId.Some?
    ensures Reconcile(p, d).outcome.Failed? && Reconcile(p, d).calls == []
    ensures Resolve(p, d).Success? ==> Reconcile(p, d).outcome == Failed(UpdateMissingName)
  {
  }

  /** A concrete input on which the as-written and intended behaviours differ: the stored alias needs an update. */
  lemma PresentByIdCounterexample()
    ensures var a := Alias("bob", "old-entity", "acc");
            var d := Directory([Entry("a1", a)], true, true, map[], map[]);
            var p := Params(Some("bob"), Some("a1"), None, Some("new-entity"), Some("acc"), "token", Present);
            && Reconcile(p, d) == Run(Failed(UpdateMissingName), [], d)
            && ReconcileIntended(p, d).outcome == Changed(None)
            && ReadAlias(ReconcileIntended(p, d).after.aliases, "a1") == Some(Alias("bob", "new-entity", "acc"))
  {
    var a := Alias("bob", "old-entity", "acc");
    var d := Directory([Entry("a1", a)], true, true, map[], map[]);
    var p := Params(Some("bob"), Some("a1"), None, Some("new-entity"), Some("acc"), "token", Present);
    assert Ids(d.aliases) == {"a1"};
    ReadAfterUpdate(d, "a1", Alias("bob", "new-entity", "acc"), "a1");
  }

  /** Resolution reads only mounts and entities, which no run changes. */
  lemma ResolveStable(p: Params, d: Directory, r: Run)
    requires SingleStep(d, r)
    ensures Resolve(p, r.after) == Resolve(p, d)
  {
  }

  /**
   Idempotence of the present state: after a run that did not fail, with the
   listing visible, the same invocation on the resulting directory is
   unchanged and issues no call. Holds for the by-name path and the intended
   by-id path.
   */
  lemma PresentIdempotent(p: Params, d: Directory)
    requires Valid(d) && d.listingOk && p.state == Present
    requires !ReconcileIntended(p, d).outcome.Failed?
    ensures var d' := ReconcileIntended(p, d).after;
            ReconcileIntended(p, d') == Run(Unchanged, [], d')
  {
    var r := ReconcileIntended(p, d);
    ResolveStable(p, d, r);
    var t := Resolve(p, d).value;
    if p.aliasId.Some? {
      if r.outcome.Changed? {
        UpdateConverges(d, p.aliasId.value, p.name.value, t.canonicalId, t.mount);
      }
    } else {
      CreateIdempotent(d, p.name.value, t.canonicalId, t.mount);
    }
  }

  /**
   Idempotence from a fresh directory: the first present-by-name run meets a
   failed listing (as Vault reports an empty one) and creates the alias; the
   same invocation, once the listing is visible, is unchanged and issues no call.
   */
  lemma PresentConvergesAfterHiddenListing(p: Params, d: Directory)
    requires p.state == Present && p.aliasId.None? && p.name.Some?
    requires !d.listingOk && d.writeOk && d.aliases == []
    requires Resolve(p, d).Success?
    ensures var d' := ReconcileIntended(p, d).after.(listingOk := true);
            && ReconcileIntended(p, d).outcome.Changed?
            && ReconcileIntended(p, d') == Run(Unchanged, [], d')
  {
    var r := ReconcileIntended(p, d);
    ResolveStable(p, d, r);
    var t := Resolve(p, d).value;
    assert Resolve(p, r.after.(listingOk := true)) == Resolve(p, d);
    CreateAfterHiddenListingConverges(d, p.name.value, t.canonicalId, t.mount);
  }

  /** Idempotence of the absent state by id: once the alias is deleted, a repeat is unchanged. */
  lemma AbsentByIdIdempotent(p: Params, d: Directory)
    requires Valid(d) && p.state == Absent && p.aliasId.Some?
    requires !Reconcile(p, d).outcome.Failed?
    ensures var d' := Reconcile(p, d).after;
            Reconcile(p, d') == Run(Unchanged, [], d')
  {
    var r := Reconcile(p, d);
    ResolveStable(p, d, r);
    var t := Resolve(p, d).value;
    if r.outcome.Changed? {
      DeleteByIdRemovesOnly(d, p.aliasId.value, p.name, t.mount, t.canonicalId);
    }
  }

  /**
   Why idempotence needs the listing: when it is hidden, the create goes ahead
   even though an alias with the same (name, mount) exists, leaving two.
   */
  lemma HiddenListingDuplicates()
    ensures var prior := Entry("a1", Alias("bob", "e-old", "acc"));
            var d := Directory([prior], false, true, map[], map[]);
            var p := Params(Some("bob"), None, None, Some("e-new"), Some("acc"), "token", Present);
            var r := Reconcile(p, d);
            && r.outcome.Changed?
            && Count(r.after.aliases, "bob", "acc", None) == 2
  {
    var prior := Entry("a1", Alias("bob", "e-old", "acc"));
    var d := Directory([prior], false, true, map[], map[]);
    var e := Entry(FreshId(d.aliases), Alias("bob", "e-new", "acc"));
    CountAppend([prior], e, "bob", "acc", None);
  }
}
