/** ImportAdvisoryDB (advisory_sync.go): delete-then-upsert of a SQLite advisory file into the six Postgres tables. */
module AdvisoryImport {
  import opened GoStrings

  datatype Stream = Stream(vendor: string, major: int, body: string)
  datatype Reference = Reference(advisoryId: string, body: string)

  /** A row of affected_package_rules or fixed_packages. */
  datatype Row = Row(advisoryId: string, streamId: string, body: string)

  /** The tables by primary key; an advisory file has the same tables. */
  datatype Tables = Tables(streams: map<string, Stream>, advisories: map<string, string>, references: map<string, Reference>,
                           links: set<(string, string)>, rules: map<string, Row>, fixes: map<string, Row>)

  const EMPTY: Tables := Tables(map[], map[], map[], {}, map[], map[])

  // ----- what the SQL statements mean -----

  function Linked(links: set<(string, string)>): set<string> { set l | l in links :: l.0 }

  function RowsOutside(rows: map<string, Row>, streams: set<string>): map<string, Row> {
    map id | id in rows && rows[id].streamId !in streams :: rows[id]
  }

  function RowsOf(rows: map<string, Row>, advisories: set<string>): map<string, Row> {
    map id | id in rows && rows[id].advisoryId in advisories :: rows[id]
  }

  function ReferencesOutside(references: map<string, Reference>, advisories: set<string>): map<string, Reference> {
    map id | id in references && references[id].advisoryId !in advisories :: references[id]
  }

  function ReferencesOf(references: map<string, Reference>, advisories: set<string>): map<string, Reference> {
    map id | id in references && references[id].advisoryId in advisories :: references[id]
  }

  function LinksOutside(links: set<(string, string)>, streams: set<string>): set<(string, string)> {
    set l | l in links && l.1 !in streams
  }

  function LinkedTo(links: set<(string, string)>, streams: set<string>): set<string> {
    set l | l in links && l.1 in streams :: l.0
  }

  /** The clean-up of step 2: the deletes by stream, then advisories without a link, with their cascades. */
  function Clean(db: Tables, streams: set<string>): Tables {
    var links := LinksOutside(db.links, streams);
    var kept := Linked(links);
    Tables(db.streams - streams,
           map id | id in db.advisories && id in kept :: db.advisories[id],
           ReferencesOf(ReferencesOutside(db.references, LinkedTo(db.links, streams)), kept),
           links,
           RowsOf(RowsOutside(db.rules, streams), kept),
           RowsOf(RowsOutside(db.fixes, streams), kept))
  }

  /** The upserts of steps 3 to 8. */
  function Upsert(db: Tables, src: Tables): Tables {
    Tables(db.streams + src.streams, db.advisories + src.advisories, db.references + src.references,
           db.links + src.links, db.rules + src.rules, db.fixes + src.fixes)
  }

  /** The streams cleaned: those stored for the scope's vendor and major version, and those of the file. */
  function Cleaned(db: Tables, src: Tables, listing: Option<(string, int)>): set<string> {
    (if listing.None? then {}
     else set id | id in db.streams && db.streams[id].vendor == listing.value.0 && db.streams[id].major == listing.value.1)
    + src.streams.Keys
  }

  /** The store after step 2. */
  function Base(db: Tables, streams: set<string>): Tables { if streams == {} then db else Clean(db, streams) }

  function Import(db: Tables, src: Tables, listing: Option<(string, int)>): Tables {
    Upsert(Base(db, Cleaned(db, src, listing)), src)
  }

  // ----- integrity -----

  ghost predicate RowsRefer(rows: map<string, Row>, advisories: set<string>, streams: set<string>) {
    forall id | id in rows :: rows[id].advisoryId in advisories && rows[id].streamId in streams
  }

  ghost predicate ReferencesRefer(references: map<string, Reference>, advisories: set<string>) {
    forall id | id in references :: references[id].advisoryId in advisories
  }

  ghost predicate LinksRefer(links: set<(string, string)>, advisories: set<string>, streams: set<string>) {
    forall l | l in links :: l.0 in advisories && l.1 in streams
  }

  /** Every link, rule, fix and reference refers to existing rows. */
  ghost predicate ForeignKeys(db: Tables) {
    && LinksRefer(db.links, db.advisories.Keys, db.streams.Keys)
    && RowsRefer(db.rules, db.advisories.Keys, db.streams.Keys)
    && RowsRefer(db.fixes, db.advisories.Keys, db.streams.Keys)
    && ReferencesRefer(db.references, db.advisories.Keys)
  }

  ghost predicate RowsLinked(rows: map<string, Row>, links: set<(string, string)>) {
    forall id | id in rows :: (rows[id].advisoryId, rows[id].streamId) in links
  }

  /** Every advisory is linked to a stream, and every rule and fix goes along with a link. */
  ghost predicate AllLinked(db: Tables) {
    db.advisories.Keys <= Linked(db.links) && RowsLinked(db.rules, db.links) && RowsLinked(db.fixes, db.links)
  }

  ghost predicate Closed(db: Tables) { ForeignKeys(db) && AllLinked(db) }

  /** On a closed store the clean-up only removes what belongs to the cleaned streams, and leaves it closed. */
  lemma CleanClosed(db: Tables, streams: set<string>)
    requires Closed(db)
    ensures Closed(Clean(db, streams))
    ensures Clean(db, streams).rules == RowsOutside(db.rules, streams)
    ensures Clean(db, streams).fixes == RowsOutside(db.fixes, streams)
  {
  }

  lemma LinkedUnion(links: set<(string, string)>, more: set<(string, string)>)
    ensures Linked(links + more) == Linked(links) + Linked(more)
  {
  }

  lemma RowsUnion(rows: map<string, Row>, more: map<string, Row>, a: set<string>, s: set<string>, a': set<string>, s': set<string>,
                  links: set<(string, string)>, links': set<(string, string)>)
    requires RowsRefer(rows, a, s) && RowsRefer(more, a', s') && RowsLinked(rows, links) && RowsLinked(more, links')
    ensures RowsRefer(rows + more, a + a', s + s') && RowsLinked(rows + more, links + links')
  {
  }

  lemma UpsertClosed(db: Tables, src: Tables)
    requires Closed(db) && Closed(src)
    ensures Closed(Upsert(db, src))
  {
    var up := Upsert(db, src);
    assert up.advisories.Keys == db.advisories.Keys + src.advisories.Keys;
    assert up.streams.Keys == db.streams.Keys + src.streams.Keys;
    LinkedUnion(db.links, src.links);
    RowsUnion(db.rules, src.rules, db.advisories.Keys, db.streams.Keys, src.advisories.Keys, src.streams.Keys, db.links, src.links);
    RowsUnion(db.fixes, src.fixes, db.advisories.Keys, db.streams.Keys, src.advisories.Keys, src.streams.Keys, db.links, src.links);
  }

  /** An import of a closed file keeps the store closed. */
  lemma ImportClosed(db: Tables, src: Tables, listing: Option<(string, int)>)
    requires Closed(db) && Closed(src)
    ensures Closed(Import(db, src, listing))
  {
    var streams := Cleaned(db, src, listing);
    CleanClosed(db, streams);
    UpsertClosed(Base(db, streams), src);
  }

  /** The foreign keys that Postgres checks when the file's rows are inserted after the clean-up. */
  ghost predicate Accepts(base: Tables, src: Tables) {
    var advisories, streams := base.advisories.Keys + src.advisories.Keys, base.streams.Keys + src.streams.Keys;
    && ReferencesRefer(src.references, advisories)
    && LinksRefer(src.links, advisories, streams)
    && RowsRefer(src.rules, advisories, streams)
    && RowsRefer(src.fixes, advisories, streams)
  }

  /** A closed file is always accepted. */
  lemma ClosedIsAccepted(base: Tables, src: Tables)
    requires Closed(src)
    ensures Accepts(base, src)
  {
  }

  lemma CleanKeepsForeignKeys(db: Tables, streams: set<string>)
    requires ForeignKeys(db)
    ensures ForeignKeys(Clean(db, streams))
  {
  }

  lemma AcceptedForeignKeys(base: Tables, src: Tables)
    requires ForeignKeys(base) && Accepts(base, src)
    ensures ForeignKeys(Upsert(base, src))
  {
    var up := Upsert(base, src);
    assert up.advisories.Keys == base.advisories.Keys + src.advisories.Keys;
    assert up.streams.Keys == base.streams.Keys + src.streams.Keys;
  }

  /** Every accepted import, of whatever file, leaves each link, rule, fix and reference with existing rows. */
  lemma AcceptedKeepsForeignKeys(db: Tables, src: Tables, listing: Option<(string, int)>)
    requires ForeignKeys(db) && Accepts(Base(db, Cleaned(db, src, listing)), src)
    ensures ForeignKeys(Import(db, src, listing))
  {
    CleanKeepsForeignKeys(db, Cleaned(db, src, listing));
    AcceptedForeignKeys(Base(db, Cleaned(db, src, listing)), src);
  }

  function RowsIn(rows: map<string, Row>, streams: set<string>): map<string, Row> {
    map id | id in rows && rows[id].streamId in streams :: rows[id]
  }

  function LinksIn(links: set<(string, string)>, streams: set<string>): set<(string, string)> {
    set l | l in links && l.1 in streams
  }

  /** Rows that a clean-up leaves: of other streams, and of an advisory that keeps a link. */
  function Lasting(db: Tables, rows: map<string, Row>, streams: set<string>): map<string, Row> {
    if streams == {} then rows else RowsOf(RowsOutside(rows, streams), Linked(LinksOutside(db.links, streams)))
  }

  lemma RowsSplit(db: Tables, rows: map<string, Row>, more: map<string, Row>, streams: set<string>)
    ensures var lasting := Lasting(db, rows, streams);
            && RowsIn(lasting + more, streams) == RowsIn(more, streams)
            && RowsOutside(lasting + more, streams) == (lasting - more.Keys) + RowsOutside(more, streams)
  {
  }

  lemma LinkedRowsLast(db: Tables, rows: map<string, Row>, streams: set<string>)
    requires RowsLinked(rows, db.links)
    ensures Lasting(db, rows, streams) == RowsOutside(rows, streams)
  {
  }

  lemma LinksSplit(links: set<(string, string)>, more: set<(string, string)>, streams: set<string>)
    ensures LinksIn(LinksOutside(links, streams) + more, streams) == LinksIn(more, streams)
    ensures LinksOutside(LinksOutside(links, streams) + more, streams) == LinksOutside(links, streams) + LinksOutside(more, streams)
  {
  }

  /** An import table by table, also when there is nothing to clean. */
  lemma ImportByTable(db: Tables, src: Tables, listing: Option<(string, int)>)
    ensures var streams, after := Cleaned(db, src, listing), Import(db, src, listing);
            && after.streams == (db.streams - streams) + src.streams
            && after.links == LinksOutside(db.links, streams) + src.links
            && after.rules == Lasting(db, db.rules, streams) + src.rules
            && after.fixes == Lasting(db, db.fixes, streams) + src.fixes
  {
    var streams := Cleaned(db, src, listing);
    if streams == {} {
      assert LinksOutside(db.links, streams) == db.links;
      assert db.streams - streams == db.streams;
    }
  }

  /** After an import, the cleaned streams hold exactly what the file has for them. */
  lemma CleanedStreamsAreTheFiles(db: Tables, src: Tables, listing: Option<(string, int)>)
    ensures var streams, after := Cleaned(db, src, listing), Import(db, src, listing);
            && LinksIn(after.links, streams) == LinksIn(src.links, streams)
            && RowsIn(after.rules, streams) == RowsIn(src.rules, streams)
            && RowsIn(after.fixes, streams) == RowsIn(src.fixes, streams)
    ensures forall s :: s in Cleaned(db, src, listing) <==> Goes(db, src, listing, s)
  {
    CleanedMeaning(db, src, listing);
    var streams := Cleaned(db, src, listing);
    ImportByTable(db, src, listing);
    LinksSplit(db.links, src.links, streams);
    RowsSplit(db, db.rules, src.rules, streams);
    RowsSplit(db, db.fixes, src.fixes, streams);
  }

  /** What a closed file has for the cleaned streams is the whole file. */
  lemma ClosedFileIsWhole(src: Tables, streams: set<string>)
    requires Closed(src) && src.streams.Keys <= streams
    ensures LinksIn(src.links, streams) == src.links
    ensures RowsIn(src.rules, streams) == src.rules && RowsIn(src.fixes, streams) == src.fixes
  {
  }

  /** Other streams keep their links and lasting rows except where the file reuses an id, and gain what the file has for them. */
  lemma OtherStreamsAreKept(db: Tables, src: Tables, listing: Option<(string, int)>)
    ensures var streams, after := Cleaned(db, src, listing), Import(db, src, listing);
            && LinksOutside(after.links, streams) == LinksOutside(db.links, streams) + LinksOutside(src.links, streams)
            && RowsOutside(after.rules, streams) ==
                 (Lasting(db, db.rules, streams) - src.rules.Keys) + RowsOutside(src.rules, streams)
            && RowsOutside(after.fixes, streams) ==
                 (Lasting(db, db.fixes, streams) - src.fixes.Keys) + RowsOutside(src.fixes, streams)
  {
    var streams := Cleaned(db, src, listing);
    ImportByTable(db, src, listing);
    LinksSplit(db.links, src.links, streams);
    RowsSplit(db, db.rules, src.rules, streams);
    RowsSplit(db, db.fixes, src.fixes, streams);
  }

  /** On a closed store every rule and fix of another stream lasts. */
  lemma ClosedStoreLasts(db: Tables, streams: set<string>)
    requires Closed(db)
    ensures Lasting(db, db.rules, streams) == RowsOutside(db.rules, streams)
    ensures Lasting(db, db.fixes, streams) == RowsOutside(db.fixes, streams)
  {
    LinkedRowsLast(db, db.rules, streams);
    LinkedRowsLast(db, db.fixes, streams);
  }

  // ----- row by row -----

  /** A stream that goes: one of the file, or a stored one of the listed vendor and major version. */
  ghost predicate Goes(db: Tables, src: Tables, listing: Option<(string, int)>, s: string) {
    || s in src.streams
    || (&& listing.Some? && s in db.streams
        && db.streams[s].vendor == listing.value.0 && db.streams[s].major == listing.value.1)
  }

  ghost predicate NothingGoes(db: Tables, src: Tables, listing: Option<(string, int)>) {
    forall s :: !Goes(db, src, listing, s)
  }

  /** An advisory keeps a link to a stream that stays. */
  ghost predicate KeepsLink(db: Tables, src: Tables, listing: Option<(string, int)>, advisory: string) {
    exists l | l in db.links :: l.0 == advisory && !Goes(db, src, listing, l.1)
  }

  ghost predicate LosesLink(db: Tables, src: Tables, listing: Option<(string, int)>, advisory: string) {
    exists l | l in db.links :: l.0 == advisory && Goes(db, src, listing, l.1)
  }

  lemma CleanedMeaning(db: Tables, src: Tables, listing: Option<(string, int)>)
    ensures forall s :: s in Cleaned(db, src, listing) <==> Goes(db, src, listing, s)
    ensures Cleaned(db, src, listing) == {} <==> NothingGoes(db, src, listing)
  {
    forall s ensures s in Cleaned(db, src, listing) <==> Goes(db, src, listing, s) {}
    if NothingGoes(db, src, listing) {
      forall s ensures s !in Cleaned(db, src, listing) { assert !Goes(db, src, listing, s); }
    }
  }

  lemma KeptMeaning(db: Tables, src: Tables, listing: Option<(string, int)>, a: string)
    ensures a in Linked(LinksOutside(db.links, Cleaned(db, src, listing))) <==> KeepsLink(db, src, listing, a)
    ensures a in LinkedTo(db.links, Cleaned(db, src, listing)) <==> LosesLink(db, src, listing, a)
  {
    CleanedMeaning(db, src, listing);
  }

  /** After an import a stream is the file's, or was stored and stays; a link likewise. */
  lemma StreamsAfter(db: Tables, src: Tables, listing: Option<(string, int)>, s: string, a: string)
    ensures var after := Import(db, src, listing);
            && (s in after.streams <==> s in src.streams || (s in db.streams && !Goes(db, src, listing, s)))
            && (s in after.streams ==> after.streams[s] == if s in src.streams then src.streams[s] else db.streams[s])
            && ((a, s) in after.links <==> (a, s) in src.links || ((a, s) in db.links && !Goes(db, src, listing, s)))
  {
    CleanedMeaning(db, src, listing);
    ImportByTable(db, src, listing);
  }

  lemma LastingMeaning(db: Tables, src: Tables, listing: Option<(string, int)>, rows: map<string, Row>, id: string)
    ensures var lasting := Lasting(db, rows, Cleaned(db, src, listing));
            && (id in lasting <==>
                  && id in rows && !Goes(db, src, listing, rows[id].streamId)
                  && (KeepsLink(db, src, listing, rows[id].advisoryId) || NothingGoes(db, src, listing)))
            && (id in lasting ==> lasting[id] == rows[id])
  {
    CleanedMeaning(db, src, listing);
    if id in rows { KeptMeaning(db, src, listing, rows[id].advisoryId); }
  }

  /** A rule or fix is the file's, or was stored, is not in the file, and its stream stays and its advisory keeps a link. */
  ghost predicate RowAfter(db: Tables, src: Tables, listing: Option<(string, int)>, rows: map<string, Row>, more: map<string, Row>,
                           after: map<string, Row>, id: string)
  {
    && (id in after <==>
          id in more ||
          (&& id in rows && !Goes(db, src, listing, rows[id].streamId)
           && (KeepsLink(db, src, listing, rows[id].advisoryId) || NothingGoes(db, src, listing))))
    && (id in after ==> after[id] == if id in more then more[id] else rows[id])
  }

  lemma RowsAfter(db: Tables, src: Tables, listing: Option<(string, int)>, id: string)
    ensures RowAfter(db, src, listing, db.rules, src.rules, Import(db, src, listing).rules, id)
    ensures RowAfter(db, src, listing, db.fixes, src.fixes, Import(db, src, listing).fixes, id)
  {
    ImportByTable(db, src, listing);
    LastingMeaning(db, src, listing, db.rules, id);
    LastingMeaning(db, src, listing, db.fixes, id);
  }

  /** An advisory is the file's, or was stored and keeps a link. */
  lemma AdvisoriesAfter(db: Tables, src: Tables, listing: Option<(string, int)>, id: string)
    ensures var after := Import(db, src, listing).advisories;
            && (id in after <==>
                  id in src.advisories ||
                  (id in db.advisories && (KeepsLink(db, src, listing, id) || NothingGoes(db, src, listing))))
            && (id in after ==> after[id] == if id in src.advisories then src.advisories[id] else db.advisories[id])
  {
    CleanedMeaning(db, src, listing);
    KeptMeaning(db, src, listing, id);
  }

  /** A reference is the file's, or was stored and its advisory keeps all of its links. */
  lemma ReferencesAfter(db: Tables, src: Tables, listing: Option<(string, int)>, id: string)
    ensures var after := Import(db, src, listing).references;
            && (id in after <==>
                  || id in src.references
                  || (&& id in db.references
                      && var a := db.references[id].advisoryId;
                         NothingGoes(db, src, listing) || (KeepsLink(db, src, listing, a) && !LosesLink(db, src, listing, a))))
            && (id in after ==> after[id] == if id in src.references then src.references[id] else db.references[id])
  {
    CleanedMeaning(db, src, listing);
    if id in db.references { KeptMeaning(db, src, listing, db.references[id].advisoryId); }
  }

  /** A stored stream of the listed vendor and major version that the file lacks is withdrawn, with all its rows. */
  lemma ListedStreamIsWithdrawn(db: Tables, src: Tables, vendor: string, major: int, s: string)
    requires s in db.streams && db.streams[s].vendor == vendor && db.streams[s].major == major && s !in src.streams
    ensures var after := Import(db, src, Some((vendor, major)));
            && s !in after.streams
            && (forall a | (a, s) in after.links :: (a, s) in src.links)
            && (forall id | id in after.rules && after.rules[id].streamId == s :: id in src.rules)
            && (forall id | id in after.fixes && after.fixes[id].streamId == s :: id in src.fixes)
  {
    var listing := Some((vendor, major));
    var after := Import(db, src, listing);
    assert Goes(db, src, listing, s);
    forall a ensures s !in after.streams && ((a, s) in after.links ==> (a, s) in src.links) { StreamsAfter(db, src, listing, s, a); }
    forall id
      ensures id in after.rules && after.rules[id].streamId == s ==> id in src.rules
      ensures id in after.fixes && after.fixes[id].streamId == s ==> id in src.fixes
    {
      RowsAfter(db, src, listing, id);
    }
  }

  /** A stored stream of another vendor or major version that the file lacks stays, with its links and its linked rows. */
  lemma OtherStreamStays(db: Tables, src: Tables, listing: Option<(string, int)>, s: string)
    requires s in db.streams && s !in src.streams
    requires listing.None? || db.streams[s].vendor != listing.value.0 || db.streams[s].major != listing.value.1
    ensures var after := Import(db, src, listing);
            && s in after.streams && after.streams[s] == db.streams[s]
            && (forall a | (a, s) in db.links :: (a, s) in after.links)
            && (forall id | id in db.rules && id !in src.rules && db.rules[id].streamId == s && (db.rules[id].advisoryId, s) in db.links ::
                  id in after.rules && after.rules[id] == db.rules[id])
            && (forall id | id in db.fixes && id !in src.fixes && db.fixes[id].streamId == s && (db.fixes[id].advisoryId, s) in db.links ::
                  id in after.fixes && after.fixes[id] == db.fixes[id])
  {
    var after := Import(db, src, listing);
    assert !Goes(db, src, listing, s);
    forall a
      ensures s in after.streams && after.streams[s] == db.streams[s] && ((a, s) in db.links ==> (a, s) in after.links)
    {
      StreamsAfter(db, src, listing, s, a);
    }
    forall a | (a, s) in db.links ensures KeepsLink(db, src, listing, a) {}
    forall id
      ensures RowAfter(db, src, listing, db.rules, src.rules, after.rules, id)
      ensures RowAfter(db, src, listing, db.fixes, src.fixes, after.fixes, id)
    {
      RowsAfter(db, src, listing, id);
    }
  }

  // ----- importing again -----

  /** Two stores agree on everything but references. */
  predicate SameButReferences(db: Tables, other: Tables) {
    && db.streams == other.streams && db.advisories == other.advisories && db.links == other.links
    && db.rules == other.rules && db.fixes == other.fixes
  }

  /** A second import of the same file cleans exactly the file's streams. */
  lemma SecondCleanup(db: Tables, src: Tables, listing: Option<(string, int)>)
    ensures Cleaned(Import(db, src, listing), src, listing) == src.streams.Keys
  {
    ImportByTable(db, src, listing);
  }

  /** The advisories that keep a link in the first clean-up keep it in the second. */
  lemma KeptAgain(db: Tables, src: Tables, listing: Option<(string, int)>)
    ensures Linked(LinksOutside(db.links, Cleaned(db, src, listing))) <=
            Linked(LinksOutside(Import(db, src, listing).links, src.streams.Keys))
  {
    ImportByTable(db, src, listing);
    forall l | l in LinksOutside(db.links, Cleaned(db, src, listing))
      ensures l in LinksOutside(Import(db, src, listing).links, src.streams.Keys)
    {
    }
  }

  lemma RowsAgain(db: Tables, rows: map<string, Row>, more: map<string, Row>, streams: set<string>, after: Tables, files: set<string>)
    requires files <= streams && Linked(LinksOutside(db.links, streams)) <= Linked(LinksOutside(after.links, files))
    ensures var again := Lasting(db, rows, streams) + more; Lasting(after, again, files) + more == again
  {
  }

  lemma AdvisoriesAgain(db: Tables, src: Tables, listing: Option<(string, int)>)
    ensures var after := Import(db, src, listing); Base(after, src.streams.Keys).advisories + src.advisories == after.advisories
  {
    KeptAgain(db, src, listing);
  }

  /** Importing a file twice is importing it once, on streams, advisories, links, rules and fixes: for every store and file. */
  lemma ImportTwice(db: Tables, src: Tables, listing: Option<(string, int)>)
    ensures SameButReferences(Import(Import(db, src, listing), src, listing), Import(db, src, listing))
  {
    var streams, files, after := Cleaned(db, src, listing), src.streams.Keys, Import(db, src, listing);
    SecondCleanup(db, src, listing);
    ImportByTable(db, src, listing);
    ImportByTable(after, src, listing);
    KeptAgain(db, src, listing);
    AdvisoriesAgain(db, src, listing);
    RowsAgain(db, db.rules, src.rules, streams, after, files);
    RowsAgain(db, db.fixes, src.fixes, streams, after, files);
    assert LinksOutside(after.links, files) + src.links == after.links;
    assert (after.streams - files) + src.streams == after.streams;
  }

  // ----- references -----

  /** References that a clean-up leaves: of an advisory that keeps a link and is linked to no cleaned stream. */
  function LastingReferences(db: Tables, streams: set<string>): map<string, Reference> {
    if streams == {} then db.references
    else ReferencesOf(ReferencesOutside(db.references, LinkedTo(db.links, streams)), Linked(LinksOutside(db.links, streams)))
  }

  lemma LinkedToFile(db: Tables, src: Tables, listing: Option<(string, int)>)
    ensures LinkedTo(Import(db, src, listing).links, src.streams.Keys) == LinkedTo(src.links, src.streams.Keys)
  {
    ImportByTable(db, src, listing);
    var files := src.streams.Keys;
    forall l | l in Import(db, src, listing).links && l.1 in files ensures l in src.links {}
  }

  /** A stored reference that the first import leaves and the second removes. */
  ghost predicate MissedAtFirst(db: Tables, src: Tables, streams: set<string>, id: string) {
    && id in db.references && id !in src.references
    && var a := db.references[id].advisoryId;
       && a in LinkedTo(src.links, src.streams.Keys)
       && a in Linked(LinksOutside(db.links, streams)) && a !in LinkedTo(db.links, streams)
  }

  lemma ReferencesAgain(db: Tables, src: Tables, streams: set<string>, after: Tables, files: set<string>)
    requires after.references == LastingReferences(db, streams) + src.references && files == src.streams.Keys <= streams
    requires LinkedTo(after.links, files) == LinkedTo(src.links, files)
    requires Linked(LinksOutside(db.links, streams)) <= Linked(LinksOutside(after.links, files))
    ensures LastingReferences(after, files) + src.references == after.references <==>
            forall id :: !MissedAtFirst(db, src, streams, id)
  {
    var again := LastingReferences(after, files) + src.references;
    forall id
      ensures id in again <==> id in after.references && !MissedAtFirst(db, src, streams, id)
      ensures id in again ==> again[id] == after.references[id]
      ensures MissedAtFirst(db, src, streams, id) ==> id in after.references
    {
    }
  }

  /**
   * The references table is the exception: importing twice is importing once exactly if no reference, unless the file has
   * its id, is stored for an advisory that the file links to one of its streams, that other streams keep and that no
   * cleaned stream had.
   */
  lemma ReferencesTwiceIff(db: Tables, src: Tables, listing: Option<(string, int)>)
    ensures Import(Import(db, src, listing), src, listing).references == Import(db, src, listing).references <==>
            forall id :: !MissedAtFirst(db, src, Cleaned(db, src, listing), id)
  {
    var streams, files, after := Cleaned(db, src, listing), src.streams.Keys, Import(db, src, listing);
    SecondCleanup(db, src, listing);
    KeptAgain(db, src, listing);
    LinkedToFile(db, src, listing);
    ReferencesAgain(db, src, streams, after, files);
  }

  /** A store with a reference for an advisory, and a file that links the advisory to another stream. */
  function StoreWith(s: string, a: string, r: string): Tables {
    Tables(map[s := Stream("v", 2, "")], map[a := ""], map[r := Reference(a, "")], {(a, s)}, map[], map[])
  }

  function FileWith(s: string, a: string): Tables {
    Tables(map[s := Stream("v", 1, "")], map[a := ""], map[], {(a, s)}, map[], map[])
  }

  lemma BothClosed(s1: string, s2: string, a: string, r: string)
    ensures Closed(StoreWith(s2, a, r)) && Closed(FileWith(s1, a))
  {
    assert (a, s2) in StoreWith(s2, a, r).links && (a, s1) in FileWith(s1, a).links;
  }

  lemma IsMissed(s1: string, s2: string, a: string, r: string)
    requires s1 != s2
    ensures MissedAtFirst(StoreWith(s2, a, r), FileWith(s1, a), Cleaned(StoreWith(s2, a, r), FileWith(s1, a), None), r)
  {
    var db, src := StoreWith(s2, a, r), FileWith(s1, a);
    assert (a, s1) in src.links;
    assert (a, s2) in LinksOutside(db.links, Cleaned(db, src, None));
  }

  /** A reference stored for an advisory through another stream survives the first import and not the second. */
  lemma ReferencesTwiceCanDiffer(s1: string, s2: string, a: string, r: string)
    requires s1 != s2
    ensures var db, src := StoreWith(s2, a, r), FileWith(s1, a);
            && Closed(db) && Closed(src)
            && Import(Import(db, src, None), src, None).references != Import(db, src, None).references
  {
    BothClosed(s1, s2, a, r);
    IsMissed(s1, s2, a, r);
    ReferencesTwiceIff(StoreWith(s2, a, r), FileWith(s1, a), None);
  }

  // ----- runs -----

  datatype Job = Job(src: Tables, listing: Option<(string, int)>)

  ghost predicate Commits(db: Tables, job: Job) { Accepts(Base(db, Cleaned(db, job.src, job.listing)), job.src) }

  /** The store after a sequence of imports, each committed or rolled back. */
  ghost function After(db: Tables, jobs: seq<Job>): Tables {
    if jobs == [] then db
    else
      var before, last := After(db, jobs[..|jobs| - 1]), jobs[|jobs| - 1];
      if Commits(before, last) then Import(before, last.src, last.listing) else before
  }

  /**
   * After any sequence of imports of any files into an empty store, every link, rule, fix and reference refers to
   * existing rows, and if the last one committed, the streams it cleaned hold exactly what its file has for them.
   */
  lemma {:induction false} RunsKeepForeignKeys(jobs: seq<Job>)
    ensures ForeignKeys(After(EMPTY, jobs))
    ensures jobs != [] ==>
              var last, before, after := jobs[|jobs| - 1], After(EMPTY, jobs[..|jobs| - 1]), After(EMPTY, jobs);
              var streams := Cleaned(before, last.src, last.listing);
              if Commits(before, last) then
                && LinksIn(after.links, streams) == LinksIn(last.src.links, streams)
                && RowsIn(after.rules, streams) == RowsIn(last.src.rules, streams)
                && RowsIn(after.fixes, streams) == RowsIn(last.src.fixes, streams)
              else after == before
  {
    if jobs != [] {
      var before, last := After(EMPTY, jobs[..|jobs| - 1]), jobs[|jobs| - 1];
      RunsKeepForeignKeys(jobs[..|jobs| - 1]);
      if Commits(before, last) {
        AcceptedKeepsForeignKeys(before, last.src, last.listing);
        CleanedStreamsAreTheFiles(before, last.src, last.listing);
      }
    }
  }

  /** If all files are closed, every import commits, and every advisory, rule and fix stays linked. */
  lemma {:induction false} RunsStayClosed(jobs: seq<Job>)
    requires forall j | j in jobs :: Closed(j.src)
    ensures Closed(After(EMPTY, jobs))
    ensures jobs != [] ==> Commits(After(EMPTY, jobs[..|jobs| - 1]), jobs[|jobs| - 1])
  {
    if jobs != [] {
      var before, last := After(EMPTY, jobs[..|jobs| - 1]), jobs[|jobs| - 1];
      RunsStayClosed(jobs[..|jobs| - 1]);
      ClosedIsAccepted(Base(before, Cleaned(before, last.src, last.listing)), last.src);
      ImportClosed(before, last.src, last.listing);
    }
  }
}
