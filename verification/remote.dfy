/**
 The identity directory as the alias reconciliation sees it: an immutable
 snapshot of the alias listing, the auth mounts and the entities, together with
 the effect of each mutating call the reconciliation can issue.
 */
module Remote {
  import opened Wrappers

  /** The attributes of one entity alias. */
  datatype Alias = Alias(name: string, canonicalId: string, mountAccessor: string)

  /** One row of the alias listing: the directory-assigned id and its attributes. */
  datatype Entry = Entry(id: string, alias: Alias)

  /**
   The directory state one invocation works on.
   - `aliases` is the listing in the order the directory returns it;
   - `listingOk` says whether the listing call succeeds;
   - `writeOk` says whether create, update and delete calls succeed;
   - `mounts` maps an auth mount path (such as "userpass/") to its accessor;
   - `entities` maps an entity name to its id.
   */
  datatype Directory = Directory(
    aliases: seq<Entry>,
    listingOk: bool,
    writeOk: bool,
    mounts: map<string, string>,
    entities: map<string, string>)

  /** The mutating calls of the directory client. */
  datatype Call =
    | CreateAlias(alias: Alias)
    | UpdateAlias(id: string, alias: Alias)
    | DeleteAlias(id: string)

  /** Alias ids are the keys of the listing, so no two entries share one. */
  predicate UniqueIds(s: seq<Entry>) {
    forall i, j | 0 <= i < j < |s| :: s[i].id != s[j].id
  }

  predicate Valid(d: Directory) {
    UniqueIds(d.aliases)
  }

  /** The key set of the listing. */
  function Ids(s: seq<Entry>): (ids: set<string>)
    ensures forall i | 0 <= i < |s| :: s[i].id in ids
    ensures forall k | k in ids :: exists i | 0 <= i < |s| :: s[i].id == k
  {
    if s == [] then {} else {s[0].id} + Ids(s[1..])
  }

  /** Reading one alias by id: the attributes stored under `id`, or nothing. */
  function ReadAlias(s: seq<Entry>, id: string): (r: Option<Alias>)
    ensures r.None? <==> id !in Ids(s)
    ensures r.Some? ==> Entry(id, r.value) in s
    ensures UniqueIds(s) ==> forall i | 0 <= i < |s| && s[i].id == id :: r == Some(s[i].alias)
  {
    if s == [] then None
    else if s[0].id == id then Some(s[0].alias)
    else ReadAlias(s[1..], id)
  }

  /**
   The id the directory assigns to a newly created alias. The directory's own
   choice is unknown; any id not yet in use will do, and this one is longer
   than every id in use.
   */
  function FreshId(s: seq<Entry>): (r: string)
    ensures forall i | 0 <= i < |s| :: |s[i].id| < |r|
    ensures r !in Ids(s)
  {
    if s == [] then "0" else s[0].id + FreshId(s[1..])
  }

  /** The listing with the attributes stored under `id` set to `a`. */
  function Replace(s: seq<Entry>, id: string, a: Alias): (r: seq<Entry>)
    ensures |r| == |s|
    ensures forall i | 0 <= i < |s| :: r[i].id == s[i].id
    ensures forall i | 0 <= i < |s| && s[i].id != id :: r[i] == s[i]
    ensures forall i | 0 <= i < |s| && s[i].id == id :: r[i].alias == a
  {
    seq(|s|, i requires 0 <= i < |s| => if s[i].id == id then Entry(id, a) else s[i])
  }

  /** The listing without the entry stored under `id`, order otherwise kept. */
  function Remove(s: seq<Entry>, id: string): seq<Entry>
  {
    if s == [] then []
    else if s[0].id == id then Remove(s[1..], id)
    else [s[0]] + Remove(s[1..], id)
  }

  /** Removal drops exactly the key `id`, invents no entry, and keeps the keys unique. */
  lemma {:induction false} RemoveKeeps(s: seq<Entry>, id: string)
    ensures Ids(Remove(s, id)) == Ids(s) - {id}
    ensures forall e | e in Remove(s, id) :: e in s
    ensures UniqueIds(s) ==> UniqueIds(Remove(s, id))
  {
    if s != [] {
      var rest := Remove(s[1..], id);
      RemoveKeeps(s[1..], id);
      IdsCons(s);
      if s[0].id != id {
        assert Remove(s, id) == [s[0]] + rest;
        IdsCons([s[0]] + rest);
        assert ([s[0]] + rest)[1..] == rest;
        if UniqueIds(s) {
          assert UniqueIds(s[1..]);
          assert s[0].id !in Ids(s[1..]);
          UniqueCons(s[0], rest);
        }
      }
    }
  }

  lemma UniqueCons(e: Entry, s: seq<Entry>)
    requires UniqueIds(s) && e.id !in Ids(s)
    ensures UniqueIds([e] + s)
  {
    var t := [e] + s;
    forall i, j | 0 <= i < j < |t|
      ensures t[i].id != t[j].id
    {
      if i > 0 {
        assert t[i] == s[i - 1] && t[j] == s[j - 1];
      } else {
        assert t[j] == s[j - 1];
      }
    }
  }

  lemma IdsCons(s: seq<Entry>)
    requires s != []
    ensures Ids(s) == {s[0].id} + Ids(s[1..])
  {
    assert s == [s[0]] + s[1..];
  }

  /** The effect on the directory of one successful mutating call. */
  function Apply(d: Directory, c: Call): (d': Directory)
    ensures d'.listingOk == d.listingOk && d'.writeOk == d.writeOk
    ensures d'.mounts == d.mounts && d'.entities == d.entities
    ensures Valid(d) ==> Valid(d')
  {
    match c
    case CreateAlias(a) => d.(aliases := d.aliases + [Entry(FreshId(d.aliases), a)])
    case UpdateAlias(id, a) => d.(aliases := Replace(d.aliases, id, a))
    case DeleteAlias(id) => RemoveKeeps(d.aliases, id); d.(aliases := Remove(d.aliases, id))
  }

  /** The effect of a sequence of successful mutating calls, in order. */
  function ApplyAll(d: Directory, cs: seq<Call>): (d': Directory)
    ensures d'.listingOk == d.listingOk && d'.writeOk == d.writeOk
    ensures d'.mounts == d.mounts && d'.entities == d.entities
    ensures Valid(d) ==> Valid(d')
    decreases cs
  {
    if cs == [] then d else ApplyAll(Apply(d, cs[0]), cs[1..])
  }

  /** A create makes the new alias readable under its fresh id and leaves every other id as it was. */
  lemma {:induction false} ReadAfterCreate(d: Directory, a: Alias, k: string)
    ensures var d' := Apply(d, CreateAlias(a));
            ReadAlias(d'.aliases, k)
              == if k == FreshId(d.aliases) then Some(a) else ReadAlias(d.aliases, k)
  {
    ReadAppend(d.aliases, Entry(FreshId(d.aliases), a), k);
  }

  lemma {:induction false} ReadAppend(s: seq<Entry>, e: Entry, k: string)
    requires e.id !in Ids(s)
    ensures ReadAlias(s + [e], k) == if k == e.id then Some(e.alias) else ReadAlias(s, k)
  {
    if s == [] {
    } else {
      assert (s + [e])[1..] == s[1..] + [e];
      if s[0].id != k {
        ReadAppend(s[1..], e, k);
      }
    }
  }

  /** An update of an existing id makes it read back as the new attributes; every other id is untouched. */
  lemma {:induction false} ReadAfterUpdate(d: Directory, id: string, a: Alias, k: string)
    ensures var d' := Apply(d, UpdateAlias(id, a));
            ReadAlias(d'.aliases, k)
              == if k == id && id in Ids(d.aliases) then Some(a) else ReadAlias(d.aliases, k)
  {
    ReadReplace(d.aliases, id, a, k);
  }

  lemma {:induction false} ReadReplace(s: seq<Entry>, id: string, a: Alias, k: string)
    ensures ReadAlias(Replace(s, id, a), k)
              == if k == id && id in Ids(s) then Some(a) else ReadAlias(s, k)
  {
    if s != [] {
      assert Replace(s, id, a)[1..] == Replace(s[1..], id, a);
      ReadReplace(s[1..], id, a, k);
    }
  }

  /** A delete makes its id unreadable and leaves every other id as it was. */
  lemma {:induction false} ReadAfterDelete(d: Directory, id: string, k: string)
    ensures var d' := Apply(d, DeleteAlias(id));
            ReadAlias(d'.aliases, k) == if k == id then None else ReadAlias(d.aliases, k)
  {
    ReadRemove(d.aliases, id, k);
  }

  lemma {:induction false} ReadRemove(s: seq<Entry>, id: string, k: string)
    ensures ReadAlias(Remove(s, id), k) == if k == id then None else ReadAlias(s, k)
  {
    if s != [] {
      ReadRemove(s[1..], id, k);
      if s[0].id != id {
        assert ([s[0]] + Remove(s[1..], id))[1..] == Remove(s[1..], id);
      }
    }
  }

  /** Removing an id that is not listed changes nothing. */
  lemma {:induction false} RemoveAbsent(s: seq<Entry>, id: string)
    requires id !in Ids(s)
    ensures Remove(s, id) == s
  {
    if s != [] {
      IdsCons(s);
      RemoveAbsent(s[1..], id);
      assert Remove(s, id) == [s[0]] + Remove(s[1..], id);
      assert s == [s[0]] + s[1..];
    }
  }

  /** Removing the id of the head of a listing with unique ids removes just the head. */
  lemma RemoveHead(s: seq<Entry>)
    requires UniqueIds(s) && s != []
    ensures Remove(s, s[0].id) == s[1..]
  {
    assert s[0].id !in Ids(s[1..]);
    RemoveAbsent(s[1..], s[0].id);
  }
}
