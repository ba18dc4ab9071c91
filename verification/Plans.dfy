/** What holds of every plan, whatever archive it was made from: which database
    member is picked, and where the data files may go. */
module Plans {
  import opened Text
  import opened Paths
  import opened Backup

  // ------------------------------------------------------- which database wins

  /** The rank of a member in one family, None if it does not belong to it. */
  function Score(common: string, role: Role): Entry -> Option<nat> {
    (e: Entry) => if Usable(e) && RoleIn(e) == role then Some(RankIn(e, common)) else None
  }

  predicate Beats(score: Entry -> Option<nat>, e: Entry, rival: Entry, strictly: bool) {
    score(e).Some? && (score(rival).Some? ==>
      if strictly then score(rival).value < score(e).value else score(rival).value <= score(e).value)
  }

  /** The first candidate of the highest rank. */
  predicate BestAt(entries: seq<Entry>, score: Entry -> Option<nat>, i: nat) {
    && i < |entries| && score(entries[i]).Some?
    && (forall j :: 0 <= j < |entries| ==> Beats(score, entries[i], entries[j], j < i))
  }

  predicate PicksAt(entries: seq<Entry>, score: Entry -> Option<nat>, pick: Pick, i: nat) {
    BestAt(entries, score, i) && pick == Pick(entries[i].path, entries[i].size, score(entries[i]).value)
  }

  ghost predicate PicksBest(entries: seq<Entry>, score: Entry -> Option<nat>, slot: Option<Pick>) {
    if slot.None? then forall j :: 0 <= j < |entries| ==> score(entries[j]).None?
    else exists i: nat :: PicksAt(entries, score, slot.value, i)
  }

  function Offer(slot: Option<Pick>, e: Entry, score: Entry -> Option<nat>): Option<Pick> {
    if score(e).None? then slot else Better(slot, e, score(e).value)
  }

  lemma PickStep(entries: seq<Entry>, e: Entry, score: Entry -> Option<nat>, slot: Option<Pick>)
    requires PicksBest(entries, score, slot)
    ensures PicksBest(entries + [e], score, Offer(slot, e, score))
  {
    var all, n := entries + [e], |entries|;
    assert all[n] == e && forall j :: 0 <= j < n ==> all[j] == entries[j];
    if slot.None? {
      if score(e).Some? {
        assert PicksAt(all, score, Pick(e.path, e.size, score(e).value), n);
      }
    } else {
      var i: nat :| PicksAt(entries, score, slot.value, i);
      if score(e).Some? && score(e).value > slot.value.rank {
        assert PicksAt(all, score, Pick(e.path, e.size, score(e).value), n);
      } else {
        assert PicksAt(all, score, slot.value, i);
      }
    }
  }

  lemma SortSlots(plan: Plan, e: Entry, role: Role, rank: nat, place: string, read: string -> Option<string>)
    ensures var next := Sort(plan, e, role, rank, place, read);
            && next.sqlite == (if role == SqliteRole then Better(plan.sqlite, e, rank) else plan.sqlite)
            && next.sql == (if role == SqlRole then Better(plan.sql, e, rank) else plan.sql)
  {}

  lemma ClassifySlots(plan: Plan, e: Entry, common: string, read: string -> Option<string>)
    ensures Classify(plan, e, common, read).sqlite == Offer(plan.sqlite, e, Score(common, SqliteRole))
    ensures Classify(plan, e, common, read).sql == Offer(plan.sql, e, Score(common, SqlRole))
  {
    var role, rank := RoleIn(e), RankIn(e, common);
    SortSlots(plan, e, role, rank, PlaceIn(e, common), read);
    assert Score(common, SqliteRole)(e) == if Usable(e) && role == SqliteRole then Some(rank) else None;
    assert Score(common, SqlRole)(e) == if Usable(e) && role == SqlRole then Some(rank) else None;
  }

  /** In both database families the slot holds the first member of maximal rank,
      and is empty only if the archive has none. */
  lemma {:induction false} DatabaseIsBest(entries: seq<Entry>, common: string, read: string -> Option<string>)
    ensures PicksBest(entries, Score(common, SqliteRole), PlanFrom(EMPTY_PLAN, entries, common, read).sqlite)
    ensures PicksBest(entries, Score(common, SqlRole), PlanFrom(EMPTY_PLAN, entries, common, read).sql)
  {
    if entries != [] {
      var init, e := entries[..|entries| - 1], entries[|entries| - 1];
      assert entries == init + [e];
      DatabaseIsBest(init, common, read);
      var plan := PlanFrom(EMPTY_PLAN, init, common, read);
      PickStep(init, e, Score(common, SqliteRole), plan.sqlite);
      PickStep(init, e, Score(common, SqlRole), plan.sql);
      ClassifySlots(plan, e, common, read);
    }
  }

  /** Between two members of one family: the database folder comes before the names a
      panel gives its database, these before any other name at the root, and that
      before everything deeper. */
  lemma RankOrder(relative: string, base: string, relative': string, base': string)
    ensures var named := base in {"db.sqlite3", "dump.sql", "marzban.db"};
            var named' := base' in {"db.sqlite3", "dump.sql", "marzban.db"};
            Rank(relative, base) > Rank(relative', base') <==>
              !StartsWith(relative', "db/") &&
              (|| StartsWith(relative, "db/")
               || (!named' && named)
               || (!named' && '/' in relative' && '/' !in relative))
  {}

  /** Any name that ends like a database is one, whatever stands in front. */
  lemma DatabaseNames(stem: string)
    ensures RoleOf(stem + ".sqlite3") == SqliteRole
    ensures RoleOf(stem + ".sqlite") == SqliteRole
    ensures RoleOf(stem + ".db") == SqliteRole
  {
    NoManifest(stem, ".sqlite3");
    NoManifest(stem, ".sqlite");
    NoManifest(stem, ".db");
  }

  lemma DumpNames(stem: string)
    ensures RoleOf(stem + ".sql") == SqlRole
    ensures RoleOf(stem + ".sql.gz") == SqlRole
  {
    NoManifest(stem, ".sql");
    NoManifest(stem, ".sql.gz");
    LastDiffers(stem, ".sql");
    LastDiffers(stem, ".sql.gz");
  }

  predicate LooksLikeDatabase(base: string) {
    || EndsWith(base, ".sqlite3") || EndsWith(base, ".sqlite") || EndsWith(base, ".db")
    || EndsWith(base, ".sql") || EndsWith(base, ".sql.gz")
  }

  /** Three names have slots of their own, and every name that is neither one of them nor
      like a database's is plain data. */
  lemma OtherNames(base: string)
    ensures RoleOf(base) == ManifestRole <==> base == MANIFEST_NAME
    ensures RoleOf(base) == EnvRole ==> base == ".env"
    ensures RoleOf(base) == XrayRole ==> base == "xray_config.json"
    ensures RoleOf(base) == DataRole <==>
            base !in {MANIFEST_NAME, ".env", "xray_config.json"} && !LooksLikeDatabase(base)
  {}

  /** The 26 capitals become small letters, and nothing else changes. */
  lemma LowerLetters(s: string, i: nat)
    requires i < |s|
    ensures Lower(s)[i] as int == if 65 <= s[i] as int <= 90 then s[i] as int + 32 else s[i] as int
  {}

  lemma LowerConcat(a: string, b: string)
    ensures Lower(a + b) == Lower(a) + Lower(b)
  {}

  lemma CapitalSuffixes()
    ensures Lower(".DB") == ".db" && Lower(".Sql") == ".sql"
  {}

  /** Capitals make no difference. */
  lemma CapitalsToo(stem: string)
    requires '/' !in stem
    ensures RoleOf(BaseOf(stem + ".DB")) == SqliteRole
    ensures RoleOf(BaseOf(stem + ".Sql")) == SqlRole
  {
    CapitalSuffixes();
    LowerConcat(stem, ".DB");
    LowerConcat(stem, ".Sql");
    DatabaseNames(Lower(stem));
    DumpNames(Lower(stem));
    assert '/' !in stem + ".DB" && '/' !in stem + ".Sql";
  }

  lemma NoManifest(stem: string, suffix: string)
    requires suffix != "" && suffix[|suffix| - 1] != 'n'
    ensures stem + suffix != MANIFEST_NAME && EndsWith(stem + suffix, suffix)
  {
    assert MANIFEST_NAME[|MANIFEST_NAME| - 1] == 'n';
  }

  lemma LastDiffers(stem: string, suffix: string)
    requires suffix != "" && suffix[|suffix| - 1] in {'l', 'z'}
    ensures !EndsWith(stem + suffix, ".sqlite3") && !EndsWith(stem + suffix, ".sqlite")
    ensures !EndsWith(stem + suffix, ".db")
  {
    EndsAlike(stem + suffix, ".sqlite3");
    EndsAlike(stem + suffix, ".sqlite");
    EndsAlike(stem + suffix, ".db");
  }

  lemma EndsAlike(s: string, suffix: string)
    requires s != "" && suffix != ""
    ensures EndsWith(s, suffix) ==> s[|s| - 1] == suffix[|suffix| - 1]
  {}

  predicate KnownAt(path: string, k: nat) {
    k < |KNOWN_PREFIXES| && StartsWith(path, KNOWN_PREFIXES[k])
  }

  lemma {:induction false} DropKnownIs(path: string, prefixes: seq<string>, k: nat)
    requires k < |prefixes| && StartsWith(path, prefixes[k])
    requires forall j :: 0 <= j < k ==> !StartsWith(path, prefixes[j])
    ensures DropKnown(path, prefixes) == path[|prefixes[k]|..]
  {
    if k > 0 { DropKnownIs(path, prefixes[1..], k - 1); }
  }

  lemma {:induction false} DropKnownNone(path: string, prefixes: seq<string>)
    requires forall j :: 0 <= j < |prefixes| ==> !StartsWith(path, prefixes[j])
    ensures DropKnown(path, prefixes) == path
  {
    if prefixes != [] { DropKnownNone(path, prefixes[1..]); }
  }

  /** Where two prefixes differ, no path starts with both. */
  lemma Apart(path: string, a: string, b: string, i: nat)
    requires i < |a| && i < |b| && a[i] != b[i]
    ensures !(StartsWith(path, a) && StartsWith(path, b))
  {}

  /** No known prefix is the beginning of another. */
  lemma KnownApart(path: string, j: nat, k: nat)
    requires KnownAt(path, j) && KnownAt(path, k)
    ensures j == k
  {
    if j != k {
      var a, b := KNOWN_PREFIXES[j], KNOWN_PREFIXES[k];
      var i := if {j, k} == {0, 1} then 8 else if {j, k} == {2, 3} then 4 else if {j, k} == {4, 5} then 7 else 0;
      Apart(path, a, b, i);
    }
  }

  /** The data directory of another panel in front of a path is dropped, whichever it is,
      and nothing else ever is. */
  lemma KnownDropped(path: string)
    ensures forall k: nat :: KnownAt(path, k) ==> StripPrefix(path, "") == path[|KNOWN_PREFIXES[k]|..]
    ensures (forall k: nat :: !KnownAt(path, k)) ==> StripPrefix(path, "") == path
  {
    forall k: nat | KnownAt(path, k) ensures StripPrefix(path, "") == path[|KNOWN_PREFIXES[k]|..] {
      forall j | 0 <= j < k ensures !StartsWith(path, KNOWN_PREFIXES[j]) {
        if KnownAt(path, j) { KnownApart(path, j, k); }
      }
      DropKnownIs(path, KNOWN_PREFIXES, k);
    }
    if forall k: nat :: !KnownAt(path, k) {
      forall j | 0 <= j < |KNOWN_PREFIXES| ensures !StartsWith(path, KNOWN_PREFIXES[j]) {
        assert !KnownAt(path, j);
      }
      DropKnownNone(path, KNOWN_PREFIXES);
    }
  }

  // --------------------------------------------------------------- containment

  predicate Placed(d: DataFile) {
    d.destination != "" && AllGood(Split(d.destination, '/'))
  }

  lemma SortPlaces(plan: Plan, e: Entry, role: Role, rank: nat, place: string, read: string -> Option<string>)
    requires place != "" ==> AllGood(Split(place, '/'))
    requires forall d <- plan.data :: Placed(d)
    ensures forall d <- Sort(plan, e, role, rank, place, read).data :: Placed(d)
  {}

  lemma PlaceGood(e: Entry, common: string)
    ensures PlaceIn(e, common) != "" ==> AllGood(Split(PlaceIn(e, common), '/'))
  {
    var relative := StripPrefix(Normalise(e.path), common);
    NormaliseGood(if StartsWith(relative, DATA_PREFIX) then relative[|DATA_PREFIX|..] else relative);
  }

  lemma {:induction false} PlansArePlaced(entries: seq<Entry>, common: string, read: string -> Option<string>)
    ensures forall d <- PlanFrom(EMPTY_PLAN, entries, common, read).data :: Placed(d)
  {
    if entries != [] {
      var init, e := entries[..|entries| - 1], entries[|entries| - 1];
      PlansArePlaced(init, common, read);
      PlaceGood(e, common);
      SortPlaces(PlanFrom(EMPTY_PLAN, init, common, read), e, RoleIn(e), RankIn(e, common), PlaceIn(e, common), read);
    }
  }

  /** Whatever the archive, each planned file lands strictly below the data
      directory, and the check made before writing passes for every one of them,
      exactly when that directory does not begin with two slashes. */
  lemma PlansStayInside(entries: seq<Entry>, common: string, read: string -> Option<string>, directory: string)
    requires Absolute(directory)
    ensures var data := PlanFrom(EMPTY_PLAN, entries, common, read).data;
            forall d <- data ::
              && Placed(d)
              && Destination(directory, d.destination) ==
                 Clean(Doubled(directory), Resolve(Split(directory, '/')) + Split(d.destination, '/'))
              && (Inside(directory, d.destination) <==> !Doubled(directory))
  {
    var data := PlanFrom(EMPTY_PLAN, entries, common, read).data;
    PlansArePlaced(entries, common, read);
    forall d <- data
      ensures Destination(directory, d.destination) ==
              Clean(Doubled(directory), Resolve(Split(directory, '/')) + Split(d.destination, '/'))
      ensures Inside(directory, d.destination) <==> !Doubled(directory)
    {
      assert Placed(d);
      LandsBelow(directory, d.destination);
      InsideIff(directory, d.destination);
    }
  }
}
