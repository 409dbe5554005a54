/**
 The three reconciliation helpers of the entity-alias module: update an alias
 found by id, create an alias unless one with the same (name, mount accessor)
 is listed, and delete an alias by id or by full match. Each is one atomic step
 over a fixed directory snapshot and reports the outcome, the mutating calls it
 issued and the directory afterwards.
 */
module EntityAlias {
  import opened Wrappers
  import opened Remote
  import opened Matcher

  /** Why an invocation failed. Messages are not modelled, only their kind. */
  datatype Error =
    | AuthMethodNotFound  // no auth mount at the path "<authtype>/"
    | NoEntityReference   // neither canonical_id nor entity_name supplied
    | NoSuchEntity        // entity_name does not name an entity
    | NoAliasReference    // neither alias_id nor name supplied
    | UnknownState        // state is neither "present" nor "absent"
    | AliasNotFound       // reading the alias by id failed
    | CallRejected        // the directory refused a create, update or delete
    | UpdateMissingName   // the update helper was called without its name argument

  /** The reported result: unchanged, changed (with the created alias in one case), or failed. */
  datatype Outcome = Unchanged | Changed(data: Option<Entry>) | Failed(error: Error)

  /** One invocation: its outcome, the mutating calls it issued, and the directory afterwards. */
  datatype Run = Run(outcome: Outcome, calls: seq<Call>, after: Directory)

  /**
   At most one mutating call is issued; the directory afterwards is exactly the
   effect of the issued calls (none when the directory refuses writes); a
   changed outcome issued one call that took effect and an unchanged one issued none.
   */
  predicate SingleStep(d: Directory, r: Run) {
    && |r.calls| <= 1
    && r.after == (if d.writeOk then ApplyAll(d, r.calls) else d)
    && (r.outcome.Changed? <==> |r.calls| == 1 && d.writeOk)
    && (r.outcome.Unchanged? ==> r.calls == [])
  }

  /** Issue one mutating call: it takes effect and reports changed, or the directory refuses it. */
  function Issue(d: Directory, c: Call, data: Option<Entry>): (r: Run)
    ensures SingleStep(d, r) && r.calls == [c]
    ensures r.outcome.Changed? || r.outcome == Failed(CallRejected)
  {
    if d.writeOk then Run(Changed(data), [c], Apply(d, c))
    else Run(Failed(CallRejected), [c], d)
  }

  /**
   Update by id: read the alias; if its canonical id is already the target,
   nothing is done; otherwise one update sets the alias to (name, cid, mount).
   */
  function Update(d: Directory, id: string, name: string, cid: string, mount: string): (r: Run)
    ensures SingleStep(d, r)
    ensures id !in Ids(d.aliases) ==> r == Run(Failed(AliasNotFound), [], d)
    ensures id in Ids(d.aliases) && ReadAlias(d.aliases, id).value.canonicalId == cid ==>
              r == Run(Unchanged, [], d)
    ensures id in Ids(d.aliases) && ReadAlias(d.aliases, id).value.canonicalId != cid ==>
              r.calls == [UpdateAlias(id, Alias(name, cid, mount))]
                  && (r.outcome == Changed(None) || r.outcome == Failed(CallRejected))
  {
    match ReadAlias(d.aliases, id)
    case None => Run(Failed(AliasNotFound), [], d)
    case Some(stored) =>
      if stored.canonicalId == cid then Run(Unchanged, [], d)
      else Issue(d, UpdateAlias(id, Alias(name, cid, mount)), None)
  }

  /**
   Create unless listed: when the listing is visible and holds an alias with
   this (name, mount), reconcile the first such alias through Update; otherwise
   issue one create. Only a create after a failed listing reports the new alias.
   */
  function Create(d: Directory, name: string, cid: string, mount: string): (r: Run)
    ensures SingleStep(d, r)
    ensures d.listingOk && FindAlias(d.aliases, name, mount, None).Some? ==>
              r == Update(d, FindAlias(d.aliases, name, mount, None).value, name, cid, mount)
    ensures !d.listingOk || FindAlias(d.aliases, name, mount, None).None? ==>
              r.calls == [CreateAlias(Alias(name, cid, mount))]
                  && (r.outcome.Changed? || r.outcome == Failed(CallRejected))
    ensures (r.outcome.Changed? && r.outcome.data.Some?) <==> (!d.listingOk && d.writeOk)
  {
    var target := Alias(name, cid, mount);
    if !d.listingOk then
      Issue(d, CreateAlias(target), Some(Entry(FreshId(d.aliases), target)))
    else
      match FindAlias(d.aliases, name, mount, None)
      case Some(id) => Update(d, id, name, cid, mount)
      case None => Issue(d, CreateAlias(target), None)
  }

  /**
   Delete by id or by name. A failed listing reads as "already absent". By id,
   the id must be a key of the listing; by name, the first alias matching name,
   mount and canonical id is deleted. With neither, the call fails.
   */
  function Delete(d: Directory, aliasId: Option<string>, name: Option<string>, mount: string, cid: string): (r: Run)
    ensures SingleStep(d, r)
    ensures !d.listingOk ==> r == Run(Unchanged, [], d)
    ensures d.listingOk && aliasId.Some? && aliasId.value !in Ids(d.aliases) ==>
              r == Run(Unchanged, [], d)
    ensures d.listingOk && aliasId.Some? && aliasId.value in Ids(d.aliases) ==>
              r.calls == [DeleteAlias(aliasId.value)]
    ensures d.listingOk && aliasId.None? && name.Some? ==>
              match FindAlias(d.aliases, name.value, mount, Some(cid))
              case None => r == Run(Unchanged, [], d)
              case Some(k) => r.calls == [DeleteAlias(k)]
    ensures d.listingOk && aliasId.None? && name.None? ==>
              r == Run(Failed(NoAliasReference), [], d)
    ensures r.outcome.Failed? ==> r.outcome.error in {NoAliasReference, CallRejected}
  {
    if !d.listingOk then Run(Unchanged, [], d)
    else if aliasId.Some? then
      if aliasId.value !in Ids(d.aliases) then Run(Unchanged, [], d)
      else Issue(d, DeleteAlias(aliasId.value), None)
    else if name.Some? then
      match FindAlias(d.aliases, name.value, mount, Some(cid))
      case None => Run(Unchanged, [], d)
      case Some(k) => Issue(d, DeleteAlias(k), None)
    else Run(Failed(NoAliasReference), [], d)
  }

  /** A changed update leaves the alias at (name, cid, mount), every other id untouched, and a repeat is unchanged. */
  lemma UpdateConverges(d: Directory, id: string, name: string, cid: string, mount: string)
    requires Update(d, id, name, cid, mount).outcome.Changed?
    ensures var d' := Update(d, id, name, cid, mount).after;
            && ReadAlias(d'.aliases, id) == Some(Alias(name, cid, mount))
            && (forall k | k != id :: ReadAlias(d'.aliases, k) == ReadAlias(d.aliases, k))
            && Update(d', id, name, cid, mount) == Run(Unchanged, [], d')
  {
    var c := UpdateAlias(id, Alias(name, cid, mount));
    var d' := Apply(d, c);
    ReadAfterUpdate(d, id, Alias(name, cid, mount), id);
    forall k | k != id
      ensures ReadAlias(d'.aliases, k) == ReadAlias(d.aliases, k)
    {
      ReadAfterUpdate(d, id, Alias(name, cid, mount), k);
    }
  }

  /**
   With the listing visible, creation never adds a second alias with the same
   (name, mount): an existing match keeps the count, and only an empty match
   set can grow, to one.
   */
  lemma CreateNoDuplicate(d: Directory, name: string, cid: string, mount: string)
    requires Valid(d) && d.listingOk
    ensures var r := Create(d, name, cid, mount);
            Count(r.after.aliases, name, mount, None)
              == if Count(d.aliases, name, mount, None) == 0 && r.outcome.Changed? then 1
                 else Count(d.aliases, name, mount, None)
  {
    var r := Create(d, name, cid, mount);
    var target := Alias(name, cid, mount);
    match FirstMatch(d.aliases, name, mount, None)
    case None =>
      if d.writeOk {
        CountAppend(d.aliases, Entry(FreshId(d.aliases), target), name, mount, None);
      }
    case Some(i) =>
      var id := d.aliases[i].id;
      if r.outcome.Changed? {
        CountReplace(d.aliases, id, target, name, mount, None);
      }
  }

  /** A successful creation with the listing visible converges: a second identical run is unchanged. */
  lemma CreateIdempotent(d: Directory, name: string, cid: string, mount: string)
    requires Valid(d) && d.listingOk
    requires !Create(d, name, cid, mount).outcome.Failed?
    ensures var d' := Create(d, name, cid, mount).after;
            Create(d', name, cid, mount) == Run(Unchanged, [], d')
  {
    var r := Create(d, name, cid, mount);
    var target := Alias(name, cid, mount);
    match FirstMatch(d.aliases, name, mount, None)
    case None =>
      var e := Entry(FreshId(d.aliases), target);
      FirstMatchAppend(d.aliases, e, name, mount, None);
      ReadAppend(d.aliases, e, e.id);
    case Some(i) =>
      var id := d.aliases[i].id;
      if r.outcome.Changed? {
        FirstMatchReplace(d.aliases, i, target, name, mount, None);
        ReadReplace(d.aliases, id, target, id);
      }
  }

  /**
   Convergence after a hidden listing. Vault reports an empty alias listing as
   a failed call, so the first run against a directory without this
   (name, mount) takes the unconditional create. Once the new alias makes the
   listing visible, a second run finds it and is unchanged.
   */
  lemma CreateAfterHiddenListingConverges(d: Directory, name: string, cid: string, mount: string)
    requires !d.listingOk && d.writeOk
    requires FirstMatch(d.aliases, name, mount, None).None?
    ensures var d' := Create(d, name, cid, mount).after.(listingOk := true);
            Create(d', name, cid, mount) == Run(Unchanged, [], d')
  {
    var e := Entry(FreshId(d.aliases), Alias(name, cid, mount));
    FirstMatchAppend(d.aliases, e, name, mount, None);
    ReadAppend(d.aliases, e, e.id);
  }

  /** Deleting by id removes exactly that alias; every other alias reads as before, and a repeat is unchanged. */
  lemma DeleteByIdRemovesOnly(d: Directory, id: string, name: Option<string>, mount: string, cid: string)
    requires Valid(d) && d.listingOk && d.writeOk && id in Ids(d.aliases)
    ensures var r := Delete(d, Some(id), name, mount, cid);
            && r.outcome == Changed(None)
            && Ids(r.after.aliases) == Ids(d.aliases) - {id}
            && (forall k | k != id :: ReadAlias(r.after.aliases, k) == ReadAlias(d.aliases, k))
            && Delete(r.after, Some(id), name, mount, cid) == Run(Unchanged, [], r.after)
  {
    var d' := Apply(d, DeleteAlias(id));
    RemoveKeeps(d.aliases, id);
    forall k | k != id
      ensures ReadAlias(d'.aliases, k) == ReadAlias(d.aliases, k)
    {
      ReadAfterDelete(d, id, k);
    }
  }

  /** Deleting by name removes only the first alias matching name, mount and canonical id. */
  lemma DeleteByNameRemovesFirstMatch(d: Directory, name: string, mount: string, cid: string)
    requires Valid(d) && d.listingOk && d.writeOk
    requires FirstMatch(d.aliases, name, mount, Some(cid)).Some?
    ensures var i := FirstMatch(d.aliases, name, mount, Some(cid)).value;
            var r := Delete(d, None, Some(name), mount, cid);
            && r.outcome == Changed(None)
            && r.calls == [DeleteAlias(d.aliases[i].id)]
            && ReadAlias(r.after.aliases, d.aliases[i].id) == None
            && (forall k | k != d.aliases[i].id :: ReadAlias(r.after.aliases, k) == ReadAlias(d.aliases, k))
            && Count(r.after.aliases, name, mount, Some(cid)) + 1 == Count(d.aliases, name, mount, Some(cid))
  {
    var i := FirstMatch(d.aliases, name, mount, Some(cid)).value;
    var id := d.aliases[i].id;
    var d' := Apply(d, DeleteAlias(id));
    ReadAfterDelete(d, id, id);
    forall k | k != id
      ensures ReadAlias(d'.aliases, k) == ReadAlias(d.aliases, k)
    {
      ReadAfterDelete(d, id, k);
    }
    CountRemove(d.aliases, id, name, mount, Some(cid));
  }
}
