/**
 The alias matcher: a first-match scan over the alias listing. Creation matches
 on (name, mount accessor); deletion by name also requires the canonical id.
 */
module Matcher {
  import opened Wrappers
  import opened Remote

  /** `a` has the target name and mount accessor, and the target canonical id when one is a criterion. */
  predicate Matches(a: Alias, name: string, mount: string, cid: Option<string>) {
    && a.mountAccessor == mount
    && a.name == name
    && (cid.Some? ==> a.canonicalId == cid.value)
  }

  /** The position of the first matching entry of the listing, or nothing. */
  function FirstMatch(s: seq<Entry>, name: string, mount: string, cid: Option<string>): (r: Option<nat>)
    ensures r.Some? ==> r.value < |s| && Matches(s[r.value].alias, name, mount, cid)
    ensures r.Some? ==> forall j | 0 <= j < r.value :: !Matches(s[j].alias, name, mount, cid)
    ensures r.None? <==> forall j | 0 <= j < |s| :: !Matches(s[j].alias, name, mount, cid)
  {
    if s == [] then None
    else if Matches(s[0].alias, name, mount, cid) then Some(0)
    else match FirstMatch(s[1..], name, mount, cid)
      case None => None
      case Some(i) => Some(i + 1)
  }

  /** The id of the first matching entry, or nothing when no entry matches (which is not an error). */
  function FindAlias(s: seq<Entry>, name: string, mount: string, cid: Option<string>): (r: Option<string>)
    ensures r.None? <==> forall j | 0 <= j < |s| :: !Matches(s[j].alias, name, mount, cid)
    ensures r.Some? ==> exists i | 0 <= i < |s| ::
              && s[i].id == r.value
              && Matches(s[i].alias, name, mount, cid)
              && forall j | 0 <= j < i :: !Matches(s[j].alias, name, mount, cid)
  {
    match FirstMatch(s, name, mount, cid)
    case None => None
    case Some(i) => Some(s[i].id)
  }

  /** The scan as the module writes it: a loop that stops at the first match, falling through to "none". */
  method Scan(s: seq<Entry>, name: string, mount: string, cid: Option<string>) returns (r: Option<string>)
    ensures r == FindAlias(s, name, mount, cid)
  {
    var i := 0;
    while i < |s|
      invariant 0 <= i <= |s|
      invariant forall j | 0 <= j < i :: !Matches(s[j].alias, name, mount, cid)
    {
      if Matches(s[i].alias, name, mount, cid) {
        FirstMatchIs(s, name, mount, cid, i);
        return Some(s[i].id);
      }
      i := i + 1;
    }
    return None;
  }

  /** The first-match position is unique: any matching position with no match before it is the one found. */
  lemma FirstMatchIs(s: seq<Entry>, name: string, mount: string, cid: Option<string>, i: nat)
    requires i < |s| && Matches(s[i].alias, name, mount, cid)
    requires forall j | 0 <= j < i :: !Matches(s[j].alias, name, mount, cid)
    ensures FirstMatch(s, name, mount, cid) == Some(i)
  {
  }

  /** The number of matching entries of the listing. */
  function Count(s: seq<Entry>, name: string, mount: string, cid: Option<string>): (n: nat)
    ensures n == 0 <==> FirstMatch(s, name, mount, cid).None?
    ensures n <= |s|
  {
    if s == [] then 0
    else (if Matches(s[0].alias, name, mount, cid) then 1 else 0) + Count(s[1..], name, mount, cid)
  }

  lemma {:induction false} CountAppend(s: seq<Entry>, e: Entry, name: string, mount: string, cid: Option<string>)
    ensures Count(s + [e], name, mount, cid)
              == Count(s, name, mount, cid) + (if Matches(e.alias, name, mount, cid) then 1 else 0)
  {
    if s != [] {
      assert (s + [e])[1..] == s[1..] + [e];
      CountAppend(s[1..], e, name, mount, cid);
    }
  }

  /** Setting a matching entry to other matching attributes keeps the number of matches. */
  lemma {:induction false} CountReplace(s: seq<Entry>, id: string, a: Alias, name: string, mount: string, cid: Option<string>)
    requires Matches(a, name, mount, cid)
    requires forall i | 0 <= i < |s| && s[i].id == id :: Matches(s[i].alias, name, mount, cid)
    ensures Count(Replace(s, id, a), name, mount, cid) == Count(s, name, mount, cid)
  {
    if s != [] {
      assert Replace(s, id, a)[1..] == Replace(s[1..], id, a);
      CountReplace(s[1..], id, a, name, mount, cid);
    }
  }

  /** After the first match is set to other matching attributes, the scan still finds it first. */
  lemma FirstMatchReplace(s: seq<Entry>, i: nat, a: Alias, name: string, mount: string, cid: Option<string>)
    requires UniqueIds(s)
    requires FirstMatch(s, name, mount, cid) == Some(i)
    requires Matches(a, name, mount, cid)
    ensures FirstMatch(Replace(s, s[i].id, a), name, mount, cid) == Some(i)
  {
    var s' := Replace(s, s[i].id, a);
    FirstMatchIs(s', name, mount, cid, i);
  }

  /** With no match in the listing, an appended matching entry is the first match. */
  lemma FirstMatchAppend(s: seq<Entry>, e: Entry, name: string, mount: string, cid: Option<string>)
    requires FirstMatch(s, name, mount, cid).None?
    requires Matches(e.alias, name, mount, cid)
    ensures FindAlias(s + [e], name, mount, cid) == Some(e.id)
  {
    FirstMatchIs(s + [e], name, mount, cid, |s|);
  }

  /** Whether the alias stored under `id` matches. */
  predicate StoredMatches(s: seq<Entry>, id: string, name: string, mount: string, cid: Option<string>) {
    ReadAlias(s, id).Some? && Matches(ReadAlias(s, id).value, name, mount, cid)
  }

  /** Removing an id lowers the number of matches by one when that id's alias matched, and keeps it otherwise. */
  lemma {:induction false} CountRemove(s: seq<Entry>, id: string, name: string, mount: string, cid: Option<string>)
    requires UniqueIds(s)
    ensures Count(Remove(s, id), name, mount, cid) + (if StoredMatches(s, id, name, mount, cid) then 1 else 0)
              == Count(s, name, mount, cid)
  {
    if s != [] {
      var rest := s[1..];
      assert UniqueIds(rest);
      if s[0].id == id {
        RemoveHead(s);
      } else {
        CountRemove(rest, id, name, mount, cid);
        CountRemoveCons(s, id, name, mount, cid);
      }
    }
  }

  lemma CountRemoveCons(s: seq<Entry>, id: string, name: string, mount: string, cid: Option<string>)
    requires s != [] && s[0].id != id
    ensures Count(Remove(s, id), name, mount, cid)
              == (if Matches(s[0].alias, name, mount, cid) then 1 else 0) + Count(Remove(s[1..], id), name, mount, cid)
  {
    var r := Remove(s[1..], id);
    assert ([s[0]] + r)[1..] == r;
  }
}
