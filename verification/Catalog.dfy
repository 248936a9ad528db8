/** The catalog of managed Databases: its well-formedness, and the catalogs that
    create, rename and drop put in its place. */
module Catalog {
  import opened Core

  const CATALOG_VERSION: nat := 1

  datatype Entry = Entry(id: string, name: string, state: string)

  datatype Catalog = Catalog(version: nat, databases: seq<Entry>)

  predicate ValidName(name: string) {
    && 1 <= |name| <= 63
    && 'a' <= name[0] <= 'z'
    && forall k | 0 <= k < |name| ::
         'a' <= name[k] <= 'z' || '0' <= name[k] <= '9' || name[k] == '_' || name[k] == '-'
  }

  predicate HexDigit(c: char) {
    '0' <= c <= '9' || 'a' <= c <= 'f' || 'A' <= c <= 'F'
  }

  /** The text form of section 4 of RFC 9562. */
  predicate Hyphenated(id: string) {
    |id| == 36 && forall k | 0 <= k < 36 :: if k in {8, 13, 18, 23} then id[k] == '-' else HexDigit(id[k])
  }

  /** The forms that the UUID library reads: plain, hyphenated, braced and URN. */
  predicate ValidUuid(id: string) {
    || (|id| == 32 && forall k | 0 <= k < 32 :: HexDigit(id[k]))
    || Hyphenated(id)
    || (|id| == 38 && id[0] == '{' && id[37] == '}' && Hyphenated(id[1..37]))
    || (|id| == 45 && id[..9] == "urn:uuid:" && Hyphenated(id[9..]))
  }

  /** Byte-wise lexicographic order on names. */
  predicate Before(a: string, b: string) {
    b != [] && (a == [] || a[0] < b[0] || (a[0] == b[0] && Before(a[1..], b[1..])))
  }

  predicate Sorted(entries: seq<Entry>) {
    forall i, j | 0 <= i < j < |entries| :: Before(entries[i].name, entries[j].name)
  }

  predicate DistinctIds(entries: seq<Entry>) {
    forall i, j | 0 <= i < j < |entries| :: entries[i].id != entries[j].id
  }

  predicate ValidEntry(e: Entry) {
    ValidUuid(e.id) && ValidName(e.name) && e.state == "ready"
  }

  predicate WellFormed(c: Catalog) {
    && c.version == CATALOG_VERSION
    && (forall e | e in c.databases :: ValidEntry(e))
    && DistinctIds(c.databases)
    && Sorted(c.databases)
  }

  function Ids(c: Catalog): set<string> {
    set e | e in c.databases :: e.id
  }

  function Names(c: Catalog): set<string> {
    set e | e in c.databases :: e.name
  }

  // ---- the order on names ----

  lemma {:induction false} BeforeTransitive(a: string, b: string, c: string)
    requires Before(a, b) && Before(b, c)
    ensures Before(a, c)
  {
    if a != [] && a[0] == b[0] == c[0] {
      BeforeTransitive(a[1..], b[1..], c[1..]);
    }
  }

  lemma {:induction false} BeforeIrreflexive(a: string)
    ensures !Before(a, a)
  {
    if a != [] {
      BeforeIrreflexive(a[1..]);
    }
  }

  lemma {:induction false} BeforeTotal(a: string, b: string)
    ensures a == b || Before(a, b) || Before(b, a)
  {
    if a != [] && b != [] {
      assert a == [a[0]] + a[1..] && b == [b[0]] + b[1..];
      BeforeTotal(a[1..], b[1..]);
    }
  }

  // ---- validation ----

  lemma {:induction false} NeighboursSuffice(entries: seq<Entry>)
    requires forall k | 1 <= k < |entries| :: Before(entries[k - 1].name, entries[k].name)
    ensures Sorted(entries)
  {
    if |entries| > 1 {
      NeighboursSuffice(entries[1..]);
      forall i, j | 0 <= i < j < |entries|
        ensures Before(entries[i].name, entries[j].name)
      {
        if i > 0 {
          assert entries[i] == entries[1..][i - 1] && entries[j] == entries[1..][j - 1];
        } else if j > 1 {
          assert entries[1] == entries[1..][0] && entries[j] == entries[1..][j - 1];
          BeforeTransitive(entries[0].name, entries[1].name, entries[j].name);
        }
      }
    }
  }

  /** Accepts exactly the well-formed catalogs (`validate_catalog`). */
  method ValidateCatalog(c: Catalog) returns (ok: bool)
    ensures ok <==> WellFormed(c)
  {
    if c.version != CATALOG_VERSION {
      return false;
    }
    var ids: set<string>, names: set<string> := {}, {};
    for k := 0 to |c.databases|
      invariant ids == set i | 0 <= i < k :: c.databases[i].id
      invariant names == set i | 0 <= i < k :: c.databases[i].name
      invariant forall i | 0 <= i < k :: ValidEntry(c.databases[i])
      invariant DistinctIds(c.databases[..k])
    {
      var e := c.databases[k];
      if !ValidEntry(e) {
        return false;
      }
      if e.id in ids {
        return false;
      }
      if e.name in names {
        var i :| 0 <= i < k && c.databases[i].name == e.name;
        BeforeIrreflexive(e.name);
        return false;
      }
      ids, names := ids + {e.id}, names + {e.name};
    }
    assert c.databases[..|c.databases|] == c.databases;
    var k := 1;
    while k < |c.databases|
      invariant 1 <= k && (c.databases != [] ==> k <= |c.databases|)
      invariant forall i | 1 <= i < k && i < |c.databases| :: Before(c.databases[i - 1].name, c.databases[i].name)
    {
      if !Before(c.databases[k - 1].name, c.databases[k].name) {
        return false;
      }
      k := k + 1;
    }
    NeighboursSuffice(c.databases);
    return true;
  }

  // ---- sorting ----

  function Insert(e: Entry, entries: seq<Entry>): seq<Entry> {
    if entries == [] then [e]
    else if Before(entries[0].name, e.name) then [entries[0]] + Insert(e, entries[1..])
    else [e] + entries
  }

  function SortByName(entries: seq<Entry>): seq<Entry> {
    if entries == [] then [] else Insert(entries[0], SortByName(entries[1..]))
  }

  lemma {:induction false} InsertPermutes(e: Entry, entries: seq<Entry>)
    ensures multiset(Insert(e, entries)) == multiset(entries) + multiset{e}
  {
    if entries != [] {
      assert entries == [entries[0]] + entries[1..];
      InsertPermutes(e, entries[1..]);
    }
  }

  lemma {:induction false} SortPermutes(entries: seq<Entry>)
    ensures multiset(SortByName(entries)) == multiset(entries)
  {
    if entries != [] {
      assert entries == [entries[0]] + entries[1..];
      SortPermutes(entries[1..]);
      InsertPermutes(entries[0], SortByName(entries[1..]));
    }
  }

  lemma {:induction false} InsertSorts(e: Entry, entries: seq<Entry>)
    requires Sorted(entries) && forall x | x in entries :: x.name != e.name
    ensures Sorted(Insert(e, entries))
  {
    InsertPermutes(e, entries);
    if entries == [] {
    } else if Before(entries[0].name, e.name) {
      InsertSorts(e, entries[1..]);
      var rest := Insert(e, entries[1..]);
      InsertPermutes(e, entries[1..]);
      forall x | x in rest
        ensures Before(entries[0].name, x.name)
      {
        assert x in multiset(rest);
      }
    } else {
      BeforeTotal(e.name, entries[0].name);
      forall j | 0 <= j < |entries|
        ensures Before(e.name, entries[j].name)
      {
        if j > 0 {
          BeforeTransitive(e.name, entries[0].name, entries[j].name);
        }
      }
    }
  }

  predicate DistinctNames(entries: seq<Entry>) {
    forall i, j | 0 <= i < j < |entries| :: entries[i].name != entries[j].name
  }

  lemma {:induction false} SortSorts(entries: seq<Entry>)
    requires DistinctNames(entries)
    ensures Sorted(SortByName(entries))
  {
    if entries != [] {
      SortSorts(entries[1..]);
      SortPermutes(entries[1..]);
      forall x | x in SortByName(entries[1..])
        ensures x.name != entries[0].name
      {
        assert x in multiset(entries[1..]);
      }
      InsertSorts(entries[0], SortByName(entries[1..]));
    }
  }

  lemma {:induction false} InsertKeepsDistinctIds(e: Entry, entries: seq<Entry>)
    requires DistinctIds(entries) && forall x | x in entries :: x.id != e.id
    ensures DistinctIds(Insert(e, entries))
  {
    if entries != [] && Before(entries[0].name, e.name) {
      InsertKeepsDistinctIds(e, entries[1..]);
      InsertPermutes(e, entries[1..]);
      var rest := Insert(e, entries[1..]);
      forall x | x in rest
        ensures x.id != entries[0].id
      {
        assert x in multiset(rest);
      }
    }
  }

  lemma {:induction false} SortKeepsDistinctIds(entries: seq<Entry>)
    requires DistinctIds(entries)
    ensures DistinctIds(SortByName(entries))
  {
    if entries != [] {
      SortKeepsDistinctIds(entries[1..]);
      SortPermutes(entries[1..]);
      forall x | x in SortByName(entries[1..])
        ensures x.id != entries[0].id
      {
        assert x in multiset(entries[1..]);
      }
      InsertKeepsDistinctIds(entries[0], SortByName(entries[1..]));
    }
  }

  lemma SortHasSameEntries(entries: seq<Entry>)
    ensures forall e :: e in SortByName(entries) <==> e in entries
  {
    SortPermutes(entries);
    forall e
      ensures e in SortByName(entries) <==> e in entries
    {
      assert e in SortByName(entries) <==> e in multiset(SortByName(entries));
      assert e in entries <==> e in multiset(entries);
    }
  }

  lemma SortedNamesDistinct(entries: seq<Entry>)
    requires Sorted(entries)
    ensures DistinctNames(entries)
  {
    forall i, j | 0 <= i < j < |entries|
      ensures entries[i].name != entries[j].name
    {
      BeforeIrreflexive(entries[i].name);
    }
  }

  // ---- the three lifecycle changes ----

  function Created(c: Catalog, id: string, name: string): Catalog {
    c.(databases := SortByName(c.databases + [Entry(id, name, "ready")]))
  }

  /** The position of the entry with this name, if there is one. */
  function Find(entries: seq<Entry>, name: string): (k: Option<nat>)
    ensures k.Some? ==> k.value < |entries| && entries[k.value].name == name
    ensures k.None? ==> forall e | e in entries :: e.name != name
  {
    if entries == [] then None
    else if entries[0].name == name then Some(0)
    else
      var rest := Find(entries[1..], name);
      if rest.Some? then Some(rest.value + 1) else None
  }

  function Renamed(c: Catalog, k: nat, name: string): Catalog
    requires k < |c.databases|
  {
    c.(databases := SortByName(c.databases[k := c.databases[k].(name := name)]))
  }

  function Retain(entries: seq<Entry>, id: string): (kept: seq<Entry>)
    ensures forall e :: e in kept <==> e in entries && e.id != id
  {
    if entries == [] then []
    else (if entries[0].id == id then [] else [entries[0]]) + Retain(entries[1..], id)
  }

  function Dropped(c: Catalog, id: string): Catalog {
    c.(databases := Retain(c.databases, id))
  }

  /** Creating under an unused name and ID gives a well-formed catalog with
      exactly one more Database. */
  lemma CreateIsWellFormed(c: Catalog, id: string, name: string)
    requires WellFormed(c) && ValidUuid(id) && ValidName(name) && id !in Ids(c) && name !in Names(c)
    ensures WellFormed(Created(c, id, name))
    ensures Ids(Created(c, id, name)) == Ids(c) + {id} && Names(Created(c, id, name)) == Names(c) + {name}
    ensures Created(c, id, name) != c
  {
    var e := Entry(id, name, "ready");
    var entries := c.databases + [e];
    SortedNamesDistinct(c.databases);
    forall i | 0 <= i < |c.databases|
      ensures c.databases[i].id != id && c.databases[i].name != name
    {
      assert c.databases[i] in c.databases;
    }
    SortSorts(entries);
    SortKeepsDistinctIds(entries);
    SortHasSameEntries(entries);
    assert e in Created(c, id, name).databases;
    assert forall x :: x in entries <==> x in c.databases || x == e;
  }

  /** Renaming to an unused name keeps every ID and only exchanges the two names. */
  lemma RenameIsWellFormed(c: Catalog, k: nat, name: string)
    requires WellFormed(c) && k < |c.databases| && ValidName(name) && name !in Names(c)
    ensures WellFormed(Renamed(c, k, name))
    ensures Ids(Renamed(c, k, name)) == Ids(c)
    ensures Names(Renamed(c, k, name)) == Names(c) - {c.databases[k].name} + {name}
    ensures Renamed(c, k, name) != c
  {
    var old', e := c.databases[k], c.databases[k].(name := name);
    var entries := c.databases[k := e];
    SortedNamesDistinct(c.databases);
    forall i | 0 <= i < |c.databases|
      ensures c.databases[i].name != name
    {
      assert c.databases[i] in c.databases;
    }
    SortSorts(entries);
    SortKeepsDistinctIds(entries);
    SortHasSameEntries(entries);
    assert entries[k] == e;
    forall x
      ensures x in entries <==> x == e || (x in c.databases && x != old')
    {
      if x in c.databases && x != old' {
        var i :| 0 <= i < |c.databases| && c.databases[i] == x;
        assert entries[i] == x;
      }
      if x in entries && x != e {
        var i :| 0 <= i < |entries| && entries[i] == x;
        assert i != k && c.databases[i] == x;
      }
    }
    assert old' in c.databases && e in entries;
  }

  lemma {:induction false} RetainKeepsOrder(entries: seq<Entry>, id: string)
    requires Sorted(entries) && DistinctIds(entries)
    ensures Sorted(Retain(entries, id)) && DistinctIds(Retain(entries, id))
  {
    if entries != [] {
      RetainKeepsOrder(entries[1..], id);
      var rest := Retain(entries[1..], id);
      forall x | x in rest
        ensures Before(entries[0].name, x.name) && x.id != entries[0].id
      {
        assert x in entries[1..];
      }
    }
  }

  /** Dropping removes exactly one Database. */
  lemma DropIsWellFormed(c: Catalog, id: string)
    requires WellFormed(c) && id in Ids(c)
    ensures WellFormed(Dropped(c, id))
    ensures Ids(Dropped(c, id)) == Ids(c) - {id}
    ensures Dropped(c, id) != c
  {
    RetainKeepsOrder(c.databases, id);
    assert id !in Ids(Dropped(c, id));
  }

  /** Names identify entries, so the first entry with a name is the only one. */
  lemma FindIsUnique(c: Catalog, e: Entry)
    requires WellFormed(c) && e in c.databases
    ensures Find(c.databases, e.name).Some? && c.databases[Find(c.databases, e.name).value] == e
  {
    SortedNamesDistinct(c.databases);
  }

  lemma RenamedEntryIsListed(c: Catalog, k: nat, name: string)
    requires k < |c.databases|
    ensures c.databases[k].(name := name) in Renamed(c, k, name).databases
  {
    var entries := c.databases[k := c.databases[k].(name := name)];
    assert entries[k] in entries;
    SortHasSameEntries(entries);
  }
}
