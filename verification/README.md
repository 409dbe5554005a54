# Entity-alias reconciliation, modelled in Dafny

This project models the core of the `hashivault_identity_entity_alias` Ansible
module. The module manages Vault identity entity aliases. An entity alias
binds a principal of one auth mount (its `name` under a `mount_accessor`) to
an identity entity (its `canonical_id`). Given a desired state (`present` or
`absent`), an alias id or name, and a target entity and mount, one invocation
decides which single directory mutation to issue: none, create, update or
delete. It reports the result as changed, unchanged or failed.

The Vault client is replaced by an immutable snapshot, `Remote.Directory`. It
holds:

- the alias listing as an ordered sequence of `(id, Alias(name, canonical_id, mount_accessor))`;
- a flag saying whether the listing call succeeds;
- a flag saying whether mutating calls succeed;
- the auth mounts, as a map from mount path to accessor;
- the entities, as a map from entity name to id.

Each operation is a pure function returning a `Run`. A `Run` holds the
outcome, the mutating calls issued, and the directory afterwards.
`EntityAlias.SingleStep` is the invariant every operation keeps:

- at most one call is issued;
- the directory afterwards is exactly the effect of the issued calls;
- a changed outcome means one call took effect;
- an unchanged outcome means no call was issued.

Modules:

- `Wrappers`: `Option` and `Result`.
- `Remote`: the directory snapshot, reads by id, and the effect of create, update and delete.
- `Matcher`: the first-match scan over the listing. It matches on (name, mount), and optionally on the canonical id too.
- `EntityAlias`: the update, create and delete helpers, and their convergence and "nothing else changes" lemmas.
- `Dispatch`: identifier resolution, the state dispatcher, and the end-to-end idempotence lemmas.

Three points where the code's behaviour is easy to misread:

- The module's documentation says that setting `alias_id` "updates the
  corresponding entity alias"
  (`ansible/modules/hashivault/hashivault_identity_entity_alias.py:55`). The
  code's `present` branch for an `alias_id` calls the update helper without
  its `alias_name` argument, so that branch fails before any call (see
  Findings).
- Create and update catch a failing directory call and report it as failed
  (`:116-117`, `:131-132`, `:152-153`). Delete does not catch one (`:167`,
  `:174`): the error propagates to the surrounding wrapper. The model reports
  a refused delete as failed, like the other calls.
- Only a create after a failed listing returns `data`. A create after a
  visible listing with no match returns no data.

## Model

| member | source | states |
|---|---|---|
| Remote.ReadAlias | ansible/modules/hashivault/hashivault_identity_entity_alias.py:99-104 | Reading by id fails exactly when the id is not a listing key; otherwise it yields the attributes stored under that id. |
| Remote.Apply | ansible/modules/hashivault/hashivault_identity_entity_alias.py:110-174 | The directory effect of update_entity_alias, create_or_update_entity_alias and delete_entity_alias. It never changes the listing flag, the write flag, the mounts or the entities, and it keeps alias ids unique. What each call does to reads by id is stated by the three ReadAfter lemmas. |
| Remote.ReadAfterCreate | ansible/modules/hashivault/hashivault_identity_entity_alias.py:126-130 | A create makes the new alias readable under a fresh id and leaves every other id as it was. |
| Remote.ReadAfterUpdate | ansible/modules/hashivault/hashivault_identity_entity_alias.py:110-115 | An update of a listed id makes it read back as (name, canonical_id, mount_accessor); every other id is untouched. |
| Remote.ReadAfterDelete | ansible/modules/hashivault/hashivault_identity_entity_alias.py:167 | A delete makes its id unreadable and leaves every other id as it was. |
| Matcher.FirstMatch | ansible/modules/hashivault/hashivault_identity_entity_alias.py:136-138 | Returns the first listing position whose mount accessor and name (and canonical id, when given) equal the targets; none exactly when no entry matches. |
| Matcher.FindAlias | ansible/modules/hashivault/hashivault_identity_entity_alias.py:170-173 | Returns the id of the first entry matching name, mount and (for deletion) canonical id, or nothing if no entry matches. |
| Matcher.Scan | ansible/modules/hashivault/hashivault_identity_entity_alias.py:170-177 | The early-returning loop, with its fall-through to "no match", returns exactly the first-match id. |
| EntityAlias.Update | ansible/modules/hashivault/hashivault_identity_entity_alias.py:98-119 | Unknown id: failed, no call. Stored canonical id already the target: unchanged, no call, directory identical. Otherwise: exactly one update to (name, canonical_id, mount_accessor), changed unless the directory refuses it. |
| EntityAlias.UpdateConverges | ansible/modules/hashivault/hashivault_identity_entity_alias.py:106-119 | After a changed update, the alias reads as the target, every other id reads as before, and repeating the update is unchanged. |
| EntityAlias.Create | ansible/modules/hashivault/hashivault_identity_entity_alias.py:121-155 | With a visible listing and a (name, mount) match, the run equals Update on the first matching id. With a failed listing or no match, exactly one create of the target is issued. Only the failed-listing create reports the new alias as data. |
| EntityAlias.CreateNoDuplicate | ansible/modules/hashivault/hashivault_identity_entity_alias.py:135-155 | With a visible listing, the number of aliases with this (name, mount) is unchanged when it was positive; it becomes one only when it was zero and the create succeeded. |
| EntityAlias.CreateIdempotent | ansible/modules/hashivault/hashivault_identity_entity_alias.py:106-107 | After a create-path run that did not fail with a visible listing, the same run on the resulting directory is unchanged and issues no call. |
| EntityAlias.CreateAfterHiddenListingConverges | ansible/modules/hashivault/hashivault_identity_entity_alias.py:122-144 | A create after a failed listing, with no alias of this (name, mount) in the directory, is followed, once the listing is visible, by an unchanged run with no call. This covers the first run against an empty directory, whose listing Vault reports as failed. |
| EntityAlias.Delete | ansible/modules/hashivault/hashivault_identity_entity_alias.py:157-179 | A failed listing, or an id that is not a listing key, gives unchanged with the directory untouched. A listed id, or the first full (name, mount, canonical id) match, gets exactly one delete. With neither id nor name the run fails. |
| EntityAlias.DeleteByIdRemovesOnly | ansible/modules/hashivault/hashivault_identity_entity_alias.py:163-168 | Deleting a listed id reports changed and removes exactly that key. Every other alias reads as before, and a repeat is unchanged. |
| EntityAlias.DeleteByNameRemovesFirstMatch | ansible/modules/hashivault/hashivault_identity_entity_alias.py:169-175 | Deleting by name removes only the first alias matching name, mount and canonical id. The number of full matches drops by one, and every other alias reads as before. |
| Dispatch.ResolveMount | ansible/modules/hashivault/hashivault_identity_entity_alias.py:192-198 | An explicit mount accessor is used unchanged. Otherwise the accessor of the mount at path authtype + "/" is used, and a missing path fails with AuthMethodNotFound. |
| Dispatch.ResolveCanonical | ansible/modules/hashivault/hashivault_identity_entity_alias.py:200-211 | An explicit canonical id is used unchanged. Otherwise the id of the named entity is used. A missing name fails with NoEntityReference, and an unknown name fails with NoSuchEntity. |
| Dispatch.Resolve | ansible/modules/hashivault/hashivault_identity_entity_alias.py:192-211 | The mount is resolved before the entity, so a mount failure is reported first. The result succeeds exactly when both resolutions do. |
| Dispatch.Reconcile | ansible/modules/hashivault/hashivault_identity_entity_alias.py:213-236 | A resolution failure gives failed before any call, for absent too. An unknown state, present with an alias id, and present with neither id nor name all fail with no call. Present by name runs Create, and absent runs Delete, on the resolved target. |
| Dispatch.PresentByIdFails | ansible/modules/hashivault/hashivault_identity_entity_alias.py:214-219 | As written, present with an alias id always fails and issues no call. |
| Dispatch.PresentByIdCounterexample | ansible/modules/hashivault/hashivault_identity_entity_alias.py:214-219 | On a stored alias whose canonical id differs from the target, the as-written run fails. The intended run updates the alias and reports changed. |
| Dispatch.ReconcileIntended | ansible/modules/hashivault/hashivault_identity_entity_alias.py:214-225 | Present with an alias id and a name runs Update with that name. Every other input behaves exactly as the written dispatcher. |
| Dispatch.ResolveStable | ansible/modules/hashivault/hashivault_identity_entity_alias.py:192-211 | No run changes what the identifiers resolve to. |
| Dispatch.PresentIdempotent | ansible/modules/hashivault/hashivault_identity_entity_alias.py:213-225 | A present run that did not fail, with a visible listing, is followed by an unchanged run with no call on the resulting directory. |
| Dispatch.PresentConvergesAfterHiddenListing | ansible/modules/hashivault/hashivault_identity_entity_alias.py:220-225 | From an empty directory whose listing fails, a present-by-name run reports changed. The same invocation, once the listing is visible, is unchanged and issues no call. |
| Dispatch.AbsentByIdIdempotent | ansible/modules/hashivault/hashivault_identity_entity_alias.py:228-234 | An absent-by-id run that did not fail is followed by an unchanged run with no call. |
| Dispatch.HiddenListingDuplicates | ansible/modules/hashivault/hashivault_identity_entity_alias.py:122-134 | With the listing hidden while a same-(name, mount) alias exists, the create goes ahead and leaves two. So convergence needs either a visible listing or a listing that is hidden only because no such alias exists. |

## Left out

- The Ansible front end (`main`, the argument spec, `fail_json`/`exit_json`) and the documentation strings. This is parameter plumbing. The front end declares `name` required; the model keeps it optional because the entry function handles its absence.
- Authentication and transport (`hashivault_auth_client`, `hashivault_init`, the `hashiwrapper` decorator, TLS/token/userpass/LDAP options). They are not part of this model. An exception the wrapper would catch is modelled as a failed outcome.
- `ansible/modules/hashivault_read.py`: its `hashivault_read` function is not part of this model. The file holds no reconciliation logic.
- Message strings and exception identity. Failures are an `Error` kind, not text.
- A failure of the `/sys/auth/` read itself. The mounts map is always readable in the model; only a missing path is a failure.
- Transport failures of the targeted reads. Reading an alias by id fails only when the id is unknown, and reading an entity by name fails only when the name is unknown.
- Remote.FreshId: the directory's choice of id for a new alias is unknown. The model assigns an id longer than every id in use. A create appends to the listing; the directory's own reaction to a duplicate (name, mount) is not modelled.
- Vault reports an empty alias listing as a failed listing call. The model keeps the listing flag independent of the listing's contents.
- The race between listing and mutation. Each invocation is one atomic step over a fixed directory.
- The content of the `data` returned after a create. The model returns the created entry (id and attributes).

- EntityAlias.CreateIdempotent: covers a first run with a visible listing only. A first run whose listing failed is covered by EntityAlias.CreateAfterHiddenListingConverges when no alias of that (name, mount) existed. When one did exist, the run creates a duplicate, as the code does (Dispatch.HiddenListingDuplicates).
- Dispatch.PresentIdempotent: covers a first run with a visible listing only. The fresh-directory case, whose listing fails because it is empty, is Dispatch.PresentConvergesAfterHiddenListing. A second run whose listing still fails creates again, as the code does.

## Findings

| source | as written | input that shows it | evidently intended | confidence | as-written member | corrected member |
|---|---|---|---|---|---|---|
| ansible/modules/hashivault/hashivault_identity_entity_alias.py:214-219 | The present-with-`alias_id` branch calls the update helper without its required `alias_name` argument. The call raises before reaching Vault, so the branch never updates anything. | state present, alias_id "a1", name "bob", canonical_id "new-entity", mount_accessor "acc"; "a1" stores canonical id "old-entity" | Pass `alias_name` through, so the alias is read by id and updated when its canonical id differs | high; not executed | Dispatch.PresentByIdCounterexample | Dispatch.ReconcileIntended |
