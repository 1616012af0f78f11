/** The import as it runs: one transaction of deletes and row-by-row upserts on the six tables. */
module AdvisoryStore {
  import opened GoStrings
  import opened AdvisoryImport

  function Restrict<V>(m: map<string, V>, keys: set<string>): map<string, V> {
    map k | k in m && k in keys :: m[k]
  }

  lemma MergeStep<V>(m: map<string, V>, more: map<string, V>, done: set<string>, k: string)
    requires k in more && k !in done
    ensures (m + Restrict(more, done))[k := more[k]] == m + Restrict(more, done + {k})
  {
  }

  /** The upsert loop of a table without foreign keys; rows come in any order. */
  method Merge<V>(m: map<string, V>, more: map<string, V>) returns (merged: map<string, V>)
    ensures merged == m + more
  {
    merged := m;
    var left := more.Keys;
    while left != {}
      invariant left <= more.Keys && merged == m + Restrict(more, more.Keys - left)
      decreases |left|
    {
      var k :| k in left;
      MergeStep(m, more, more.Keys - left, k);
      assert more.Keys - (left - {k}) == more.Keys - left + {k};
      left := left - {k};
      merged := merged[k := more[k]];
    }
    assert Restrict(more, more.Keys - left) == more;
  }

  ghost predicate AllRefer<V(!new)>(more: map<string, V>, keys: set<string>, refers: V -> bool) {
    forall k | k in keys && k in more :: refers(more[k])
  }

  lemma AllReferStep<V(!new)>(more: map<string, V>, done: set<string>, k: string, refers: V -> bool)
    requires k in more && AllRefer(more, done, refers)
    ensures AllRefer(more, done + {k}, refers) <==> refers(more[k])
    ensures AllRefer(more, more.Keys, refers) ==> refers(more[k])
  {
    assert k in done + {k};
  }

  /** The upsert loop of a table whose rows must refer to existing rows; the first that does not is an error. */
  method MergeChecked<V(!new)>(m: map<string, V>, more: map<string, V>, refers: V -> bool) returns (ok: bool, merged: map<string, V>)
    ensures ok <==> AllRefer(more, more.Keys, refers)
    ensures ok ==> merged == m + more
  {
    merged := m;
    var left := more.Keys;
    while left != {}
      invariant left <= more.Keys && merged == m + Restrict(more, more.Keys - left)
      invariant AllRefer(more, more.Keys - left, refers)
      decreases |left|
    {
      var k :| k in left;
      AllReferStep(more, more.Keys - left, k, refers);
      if !refers(more[k]) { return false, merged; }
      MergeStep(m, more, more.Keys - left, k);
      assert more.Keys - (left - {k}) == more.Keys - left + {k};
      left := left - {k};
      merged := merged[k := more[k]];
    }
    assert more.Keys - left == more.Keys && Restrict(more, more.Keys) == more;
    return true, merged;
  }

  method MergeRows(rows: map<string, Row>, more: map<string, Row>, advisories: set<string>, streams: set<string>)
    returns (ok: bool, merged: map<string, Row>)
    ensures ok <==> RowsRefer(more, advisories, streams)
    ensures ok ==> merged == rows + more
  {
    ok, merged := MergeChecked(rows, more, (row: Row) => row.advisoryId in advisories && row.streamId in streams);
  }

  method MergeReferences(references: map<string, Reference>, more: map<string, Reference>, advisories: set<string>)
    returns (ok: bool, merged: map<string, Reference>)
    ensures ok <==> ReferencesRefer(more, advisories)
    ensures ok ==> merged == references + more
  {
    ok, merged := MergeChecked(references, more, (r: Reference) => r.advisoryId in advisories);
  }

  method MergeLinks(links: set<(string, string)>, more: set<(string, string)>, advisories: set<string>, streams: set<string>)
    returns (ok: bool, merged: set<(string, string)>)
    ensures ok <==> LinksRefer(more, advisories, streams)
    ensures ok ==> merged == links + more
  {
    merged := links;
    var left := more;
    while left != {}
      invariant left <= more && merged == links + (more - left)
      invariant forall l | l in more - left :: l.0 in advisories && l.1 in streams
      decreases |left|
    {
      var l :| l in left;
      if l.0 !in advisories || l.1 !in streams { return false, merged; }
      left := left - {l};
      merged := merged + {l};
    }
    return true, merged;
  }

  /** cleanUpStreamIDs: the listed streams, then those of the file not yet seen. */
  method CollectCleanup(existing: seq<string>, fileIds: seq<string>) returns (ids: seq<string>)
    ensures (set id | id in ids) == (set id | id in existing) + (set id | id in fileIds)
  {
    ids := existing;
    var seen: set<string> := set id | id in existing;
    for i := 0 to |fileIds|
      invariant seen == (set id | id in ids) == (set id | id in existing) + (set id | id in fileIds[..i])
    {
      assert fileIds[..i + 1] == fileIds[..i] + [fileIds[i]];
      if fileIds[i] !in seen {
        ids := ids + [fileIds[i]];
        seen := seen + {fileIds[i]};
      }
    }
    assert fileIds[..|fileIds|] == fileIds;
  }

  /** Rows in any order. */
  method ListOf(s: set<string>) returns (ids: seq<string>)
    ensures (set id | id in ids) == s
  {
    ids := [];
    var left := s;
    while left != {}
      invariant left <= s && (set id | id in ids) == s - left
      decreases |left|
    {
      var id :| id in left;
      ghost var before := ids;
      left := left - {id};
      ids := ids + [id];
      assert (set i | i in ids) == (set i | i in before) + {id};
    }
  }

  /** Where a query, a scan, the connection or the commit fails, if anywhere. */
  datatype Outage = NoOutage | Reading | Cleaning | Committing

  class Store {
    var streams: map<string, Stream>
    var advisories: map<string, string>
    var references: map<string, Reference>
    var links: set<(string, string)>
    var rules: map<string, Row>
    var fixes: map<string, Row>

    ghost function Contents(): Tables reads this {
      Tables(streams, advisories, references, links, rules, fixes)
    }

    constructor ()
      ensures Contents() == EMPTY
    {
      streams, advisories, references, links, rules, fixes := map[], map[], map[], {}, map[], map[];
    }

    /** Step 2: the six deletes, in order. */
    method CleanUp(ids: set<string>)
      modifies this
      ensures Contents() == Clean(old(Contents()), ids)
    {
      references := ReferencesOutside(references, LinkedTo(links, ids));
      links := LinksOutside(links, ids);
      rules := RowsOutside(rules, ids);
      fixes := RowsOutside(fixes, ids);
      streams := streams - ids;
      var kept := Linked(links);
      advisories := map id | id in advisories && id in kept :: advisories[id];
      references := ReferencesOf(references, kept);
      rules := RowsOf(rules, kept);
      fixes := RowsOf(fixes, kept);
    }

    /** Steps 3 to 8; on an error some tables are already changed. */
    method InsertFile(src: Tables) returns (ok: bool)
      modifies this
      ensures ok <==> Accepts(old(Contents()), src)
      ensures ok ==> Contents() == Upsert(old(Contents()), src)
    {
      streams := Merge(streams, src.streams);
      advisories := Merge(advisories, src.advisories);
      var known, present := advisories.Keys, streams.Keys;
      assert known == old(advisories).Keys + src.advisories.Keys && present == old(streams).Keys + src.streams.Keys;
      ok, references := MergeReferences(references, src.references, known);
      if !ok { return; }
      ok, links := MergeLinks(links, src.links, known, present);
      if !ok { return; }
      ok, rules := MergeRows(rules, src.rules, known, present);
      if !ok { return; }
      ok, fixes := MergeRows(fixes, src.fixes, known, present);
    }

    /** ImportAdvisoryDB inside its transaction: committed as a whole or rolled back. */
    method ImportFile(src: Tables, listing: Option<(string, int)>, outage: Outage) returns (ok: bool)
      modifies this
      ensures ok <==> outage.NoOutage? && Commits(old(Contents()), Job(src, listing))
      ensures Contents() == if ok then Import(old(Contents()), src, listing) else old(Contents())
    {
      if outage.Reading? { return false; }
      var was := (streams, advisories, references, links, rules, fixes);
      var ids := FindCleanup(src, listing);
      if ids != {} { CleanUp(ids); }
      ok := false;
      if !outage.Cleaning? { ok := InsertFile(src); }
      if !ok || outage.Committing? {
        streams, advisories, references, links, rules, fixes := was.0, was.1, was.2, was.3, was.4, was.5;
        return false;
      }
    }

    /** Step 1: which streams to clean. */
    method FindCleanup(src: Tables, listing: Option<(string, int)>) returns (ids: set<string>)
      ensures ids == Cleaned(Contents(), src, listing)
    {
      var existing := [];
      if listing.Some? {
        existing := ListOf(set id | id in streams && streams[id].vendor == listing.value.0 && streams[id].major == listing.value.1);
      }
      var fileIds := ListOf(src.streams.Keys);
      var cleanUp := CollectCleanup(existing, fileIds);
      ids := set id | id in cleanUp;
    }
  }
}
