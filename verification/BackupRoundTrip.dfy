/** What create_backup writes, read back by the classification. */
module BackupRoundTrip {
  import opened Text
  import opened Paths
  import opened Backup
  import opened Plans

  datatype Dump = NoDump | SqliteDump | SqlDump

  /** One backup: the database dump, whether the .env and the core's
      configuration are in it, and the data files by their path below the data
      directory. `sizes` gives the sizes of the fixed members. */
  datatype Contents = Contents(dump: Dump, env: bool, xray: bool, files: seq<Entry>, sizes: string -> nat)

  function Fixed(c: Contents, member: string): Entry {
    Entry(member, c.sizes(member))
  }

  function DumpMembers(c: Contents): seq<Entry> {
    match c.dump
    case NoDump => []
    case SqliteDump => [Fixed(c, DB_MEMBER_SQLITE)]
    case SqlDump => [Fixed(c, DB_MEMBER_SQL)]
  }

  function DataMember(f: Entry): Entry {
    Entry(DATA_PREFIX + f.path, f.size)
  }

  function DataMembers(files: seq<Entry>): (r: seq<Entry>)
    ensures |r| == |files|
  {
    if files == [] then [] else DataMembers(files[..|files| - 1]) + [DataMember(files[|files| - 1])]
  }

  /** The manifest, which goes first, and the other fixed members. */
  function FixedMembers(c: Contents): seq<Entry> {
    [Fixed(c, MANIFEST_NAME)] + DumpMembers(c)
    + (if c.env then [Fixed(c, ENV_MEMBER)] else [])
    + (if c.xray then [Fixed(c, XRAY_MEMBER)] else [])
  }

  /** The members in the order create_backup adds them. */
  function Layout(c: Contents): seq<Entry> {
    FixedMembers(c) + DataMembers(c.files)
  }

  // -------------------------------------------------------- the fixed members

  /** A segment that normalisation leaves alone wherever it stands. */
  predicate SafeName(s: string) {
    GoodSegment(s) && !IsSpace(s[0]) && !IsSpace(s[|s| - 1]) && '\\' !in s && !HasDrive(s)
  }

  lemma FixedPath(folder: string, name: string)
    requires SafeName(folder) && SafeName(name) && |folder| >= 2 && Lower(name) == name
    ensures var path := folder + "/" + name; Normalise(path) == path && BaseOf(path) == name
  {
    var path := folder + "/" + name;
    SplitFirst(folder, '/', name);
    SplitAbsent(name, '/');
    assert Split(path, '/') == [folder, name];
    assert path[0] == folder[0] && path[1] == folder[1] && path[|path| - 1] == name[|name| - 1];
    BenignIsFixed(path);
    LastIndexIs(folder, '/', name);
    assert path[|folder| + 1..] == name;
  }

  lemma FixedRole(folder: string, name: string, path: string, size: nat)
    requires SafeName(folder) && SafeName(name) && |folder| >= 2 && Lower(name) == name
    requires path == folder + "/" + name
    ensures var e := Entry(path, size); Usable(e) && RoleIn(e) == RoleOf(name)
    ensures path[0] == 'd' ==> RankIn(Entry(path, size), "") == Rank(path, name)
  {
    FixedPath(folder, name);
    if path[0] == 'd' { NotKnown(path); }
  }

  lemma ManifestNames()
    ensures SafeName(MANIFEST_NAME) && Lower(MANIFEST_NAME) == MANIFEST_NAME && RoleOf(MANIFEST_NAME) == ManifestRole
  {}

  lemma SqliteNames()
    ensures SafeName("db") && SafeName("db.sqlite3") && Lower("db.sqlite3") == "db.sqlite3"
    ensures RoleOf("db.sqlite3") == SqliteRole && StartsWith(DB_MEMBER_SQLITE, "db/")
    ensures DB_MEMBER_SQLITE == "db" + "/" + "db.sqlite3"
  {}

  lemma SqlNames()
    ensures SafeName("db") && SafeName("dump.sql") && Lower("dump.sql") == "dump.sql"
    ensures RoleOf("dump.sql") == SqlRole && StartsWith(DB_MEMBER_SQL, "db/")
    ensures DB_MEMBER_SQL == "db" + "/" + "dump.sql"
  {
    SqlRoleName();
  }

  lemma SqlRoleName()
    ensures RoleOf("dump.sql") == SqlRole
  {
    var name := "dump.sql";
    EndsAlike(name, ".sqlite3");
    EndsAlike(name, ".sqlite");
    EndsAlike(name, ".db");
    assert name[4..] == ".sql";
  }

  lemma EnvNames()
    ensures SafeName("env") && SafeName(".env") && Lower(".env") == ".env" && RoleOf(".env") == EnvRole
    ensures ENV_MEMBER == "env" + "/" + ".env"
  {}

  lemma XrayNames()
    ensures SafeName("xray") && SafeName("xray_config.json") && Lower("xray_config.json") == "xray_config.json"
    ensures RoleOf("xray_config.json") == XrayRole && XRAY_MEMBER == "xray" + "/" + "xray_config.json"
  {}

  lemma ManifestIsRead(size: nat)
    ensures var e := Entry(MANIFEST_NAME, size); Usable(e) && RoleIn(e) == ManifestRole && '/' !in Normalise(e.path)
  {
    ManifestNames();
    RootName(MANIFEST_NAME);
  }

  lemma RootName(name: string)
    requires SafeName(name) && Lower(name) == name
    ensures Normalise(name) == name && BaseOf(name) == name
  {
    SplitAbsent(name, '/');
    BenignIsFixed(name);
  }

  lemma SqliteIsRead(size: nat)
    ensures var e := Entry(DB_MEMBER_SQLITE, size); Usable(e) && RoleIn(e) == SqliteRole && RankIn(e, "") == 3
  {
    SqliteNames();
    FixedRole("db", "db.sqlite3", DB_MEMBER_SQLITE, size);
  }

  lemma SqlIsRead(size: nat)
    ensures var e := Entry(DB_MEMBER_SQL, size); Usable(e) && RoleIn(e) == SqlRole && RankIn(e, "") == 3
  {
    SqlNames();
    FixedRole("db", "dump.sql", DB_MEMBER_SQL, size);
  }

  lemma EnvIsRead(size: nat)
    ensures var e := Entry(ENV_MEMBER, size); Usable(e) && RoleIn(e) == EnvRole
  {
    EnvNames();
    FixedRole("env", ".env", ENV_MEMBER, size);
  }

  lemma XrayIsRead(size: nat)
    ensures var e := Entry(XRAY_MEMBER, size); Usable(e) && RoleIn(e) == XrayRole
  {
    XrayNames();
    FixedRole("xray", "xray_config.json", XRAY_MEMBER, size);
  }

  /** No known prefix begins with a d. */
  lemma NotKnown(path: string)
    requires path != "" && path[0] == 'd'
    ensures StripPrefix(path, "") == path
  {
    KnownStarts();
    DropKnownSkips(path, KNOWN_PREFIXES);
  }

  predicate NoneStartsWith(prefixes: seq<string>, c: char) {
    forall i :: 0 <= i < |prefixes| ==> prefixes[i] != "" && prefixes[i][0] != c
  }

  lemma KnownStarts()
    ensures NoneStartsWith(KNOWN_PREFIXES, 'd')
  {}

  lemma {:induction false} DropKnownSkips(path: string, prefixes: seq<string>)
    requires path != "" && NoneStartsWith(prefixes, path[0])
    ensures DropKnown(path, prefixes) == path
  {
    if prefixes != [] {
      DropKnownSkips(path, prefixes[1..]);
    }
  }

  // ------------------------------------------------- the fixed part of the plan

  function FixedPlan(c: Contents, read: string -> Option<string>): Plan {
    Plan(
      if c.dump.SqliteDump? then Some(Pick(DB_MEMBER_SQLITE, c.sizes(DB_MEMBER_SQLITE), 3)) else None,
      if c.dump.SqlDump? then Some(Pick(DB_MEMBER_SQL, c.sizes(DB_MEMBER_SQL), 3)) else None,
      if c.env then Some(ENV_MEMBER) else None,
      if c.xray then Some(XRAY_MEMBER) else None,
      [],
      read(MANIFEST_NAME))
  }

  lemma {:induction false} PlanFromConcat(plan: Plan, a: seq<Entry>, b: seq<Entry>, common: string,
                                          read: string -> Option<string>)
    ensures PlanFrom(plan, a + b, common, read) == PlanFrom(PlanFrom(plan, a, common, read), b, common, read)
  {
    if b == [] {
      assert a + b == a;
    } else {
      var all, init := a + b, b[..|b| - 1];
      assert all[..|all| - 1] == a + init && all[|all| - 1] == b[|b| - 1];
      PlanFromConcat(plan, a, init, common, read);
      PlanFromLast(plan, all, common, read);
      PlanFromLast(PlanFrom(plan, a, common, read), b, common, read);
    }
  }

  lemma PlanFromLast(plan: Plan, entries: seq<Entry>, common: string, read: string -> Option<string>)
    requires entries != []
    ensures PlanFrom(plan, entries, common, read)
         == Classify(PlanFrom(plan, entries[..|entries| - 1], common, read), entries[|entries| - 1], common, read)
  {}

  lemma PlanFromOne(plan: Plan, e: Entry, common: string, read: string -> Option<string>)
    ensures PlanFrom(plan, [e], common, read) == Classify(plan, e, common, read)
  {
    assert [e][..0] == [];
  }

  /** A member alone, by the role it has. */
  lemma OneMember(plan: Plan, e: Entry, read: string -> Option<string>)
    requires Usable(e)
    ensures PlanFrom(plan, [e], "", read) == Sort(plan, e, RoleIn(e), RankIn(e, ""), PlaceIn(e, ""), read)
  {
    PlanFromOne(plan, e, "", read);
  }

  lemma DumpStep(c: Contents, plan: Plan, read: string -> Option<string>)
    requires plan.sqlite.None? && plan.sql.None?
    ensures PlanFrom(plan, DumpMembers(c), "", read)
         == plan.(sqlite := FixedPlan(c, read).sqlite, sql := FixedPlan(c, read).sql)
  {
    match c.dump
    case NoDump =>
    case SqliteDump =>
      SqliteIsRead(c.sizes(DB_MEMBER_SQLITE));
      OneMember(plan, Fixed(c, DB_MEMBER_SQLITE), read);
    case SqlDump =>
      SqlIsRead(c.sizes(DB_MEMBER_SQL));
      OneMember(plan, Fixed(c, DB_MEMBER_SQL), read);
  }

  lemma EnvEntry(plan: Plan, e: Entry, read: string -> Option<string>)
    requires Usable(e) && RoleIn(e) == EnvRole && plan.env.None?
    ensures PlanFrom(plan, [e], "", read) == plan.(env := Some(e.path))
  {
    OneMember(plan, e, read);
  }

  lemma XrayEntry(plan: Plan, e: Entry, read: string -> Option<string>)
    requires Usable(e) && RoleIn(e) == XrayRole && plan.xray.None?
    ensures PlanFrom(plan, [e], "", read) == plan.(xray := Some(e.path))
  {
    OneMember(plan, e, read);
  }

  lemma EnvStep(c: Contents, plan: Plan, read: string -> Option<string>)
    requires plan.env.None?
    ensures PlanFrom(plan, if c.env then [Fixed(c, ENV_MEMBER)] else [], "", read) ==
            plan.(env := FixedPlan(c, read).env)
  {
    if c.env {
      EnvIsRead(c.sizes(ENV_MEMBER));
      EnvEntry(plan, Fixed(c, ENV_MEMBER), read);
    }
  }

  lemma XrayStep(c: Contents, plan: Plan, read: string -> Option<string>)
    requires plan.xray.None?
    ensures PlanFrom(plan, if c.xray then [Fixed(c, XRAY_MEMBER)] else [], "", read) ==
            plan.(xray := FixedPlan(c, read).xray)
  {
    if c.xray {
      XrayIsRead(c.sizes(XRAY_MEMBER));
      XrayEntry(plan, Fixed(c, XRAY_MEMBER), read);
    }
  }

  lemma ManifestStep(c: Contents, read: string -> Option<string>)
    ensures PlanFrom(EMPTY_PLAN, [Fixed(c, MANIFEST_NAME)], "", read) == EMPTY_PLAN.(manifest := read(MANIFEST_NAME))
  {
    ManifestIsRead(c.sizes(MANIFEST_NAME));
    OneMember(EMPTY_PLAN, Fixed(c, MANIFEST_NAME), read);
  }

  lemma FixedMembersPlan(c: Contents, read: string -> Option<string>)
    ensures PlanFrom(EMPTY_PLAN, FixedMembers(c), "", read) == FixedPlan(c, read)
  {
    var m, d := [Fixed(c, MANIFEST_NAME)], DumpMembers(c);
    var e := if c.env then [Fixed(c, ENV_MEMBER)] else [];
    var x := if c.xray then [Fixed(c, XRAY_MEMBER)] else [];
    var fixed := FixedPlan(c, read);
    var p0 := EMPTY_PLAN.(manifest := read(MANIFEST_NAME));
    var p1 := p0.(sqlite := fixed.sqlite, sql := fixed.sql);
    var p2 := p1.(env := fixed.env);
    ManifestStep(c, read);
    DumpStep(c, p0, read);
    EnvStep(c, p1, read);
    XrayStep(c, p2, read);
    PlanFromConcat(EMPTY_PLAN, m, d, "", read);
    PlanFromConcat(EMPTY_PLAN, m + d, e, "", read);
    PlanFromConcat(EMPTY_PLAN, m + d + e, x, "", read);
  }

  /** The manifest at the root tells that there is no wrapper directory. */
  lemma LayoutHasNoWrapper(c: Contents)
    ensures IsCommon(Layout(c), "")
  {
    var e := Fixed(c, MANIFEST_NAME);
    ManifestIsRead(e.size);
    assert Layout(c)[0] == e;
    RootFileNoWrapper(Layout(c), e);
  }

  // ------------------------------------------------------------ the data files

  lemma {:induction false} KeptAfter(first: string, parts: seq<string>)
    requires GoodSegment(first)
    ensures Kept([first] + parts) == [first] + Kept(parts)
  {
    var all := [first] + parts;
    if parts == [] {
      assert all[..0] == [];
    } else {
      var init := parts[..|parts| - 1];
      assert all[..|all| - 1] == [first] + init && all[|all| - 1] == parts[|parts| - 1];
      KeptAfter(first, init);
    }
  }

  lemma DataCleaned(relative: string)
    ensures Strip(Slashes(DATA_PREFIX + relative)) == DATA_PREFIX + StripRight(Slashes(relative))
  {
    SlashesAfter(DATA_PREFIX, relative);
    StripRightAfter(DATA_PREFIX, Slashes(relative));
  }

  lemma JoinData(kept: seq<string>)
    ensures Join(["data"] + kept, "/") == if kept == [] then "data" else DATA_PREFIX + Join(kept, "/")
  {
    assert (["data"] + kept)[1..] == kept;
  }

  /** A data member, when usable, stays below `data`. */
  lemma DataNormalised(relative: string)
    ensures var path, kept := Normalise(DATA_PREFIX + relative), Kept(Split(StripRight(Slashes(relative)), '/'));
            path == "" || path == (if kept == [] then "data" else DATA_PREFIX + Join(kept, "/"))
  {
    var rest := StripRight(Slashes(relative));
    DataCleaned(relative);
    DataSplit(rest);
    KeptAfter("data", Split(rest, '/'));
    JoinData(Kept(Split(rest, '/')));
  }

  /** Data files never outrank a dump in its own slot. */
  lemma DataRank(f: Entry)
    requires Usable(DataMember(f))
    ensures RankIn(DataMember(f), "") < 3
  {
    var path := Normalise(DATA_PREFIX + f.path);
    DataNormalised(f.path);
    assert path[0] == 'd' && path[1] == 'a';
    NotKnown(path);
    NotDb(path);
  }

  lemma NotDb(path: string)
    requires |path| >= 2 && path[1] == 'a'
    ensures !StartsWith(path, "db/")
  {
    assert "db/"[1] == 'b';
  }

  /** The paths os.walk yields below the data directory. */
  predicate OnDisk(f: Entry) {
    f.path != "" && AllGood(Split(f.path, '/'))
  }

  lemma DataSplit(relative: string)
    ensures Split(DATA_PREFIX + relative, '/') == ["data"] + Split(relative, '/')
  {
    assert DATA_PREFIX + relative == "data" + ['/'] + relative;
    SplitFirst("data", '/', relative);
  }

  lemma BasenameIs(head: string, tail: string)
    requires '/' !in tail
    ensures Basename(head + ['/'] + tail) == tail
  {
    LastIndexIs(head, '/', tail);
    assert (head + ['/'] + tail)[|head| + 1..] == tail;
  }

  /** A folder in front does not change the base name. */
  lemma BaseBelow(folder: string, relative: string)
    ensures Basename(folder + "/" + relative) == Basename(relative)
  {
    var slash := LastIndex(relative, '/');
    if slash.None? {
      BasenameIs(folder, relative);
    } else {
      var head, tail := relative[..slash.value], relative[slash.value + 1..];
      SplitsAt(relative, slash.value);
      BasenameIs(folder + "/" + head, tail);
      Regroup(folder + "/", head, ['/'], tail);
      BasenameIs(head, tail);
    }
  }

  lemma DataBase(relative: string)
    ensures Basename(DATA_PREFIX + relative) == Basename(relative)
  {
    BaseBelow("data", relative);
    assert DATA_PREFIX == "data" + "/";
  }

  lemma DataPath(f: Entry)
    requires OnDisk(f) && '\\' !in f.path && !IsSpace(f.path[|f.path| - 1])
    ensures Normalise(DATA_PREFIX + f.path) == DATA_PREFIX + f.path
    ensures PlaceIn(DataMember(f), "") == Normalise(f.path) && RoleIn(DataMember(f)) == RoleOf(BaseOf(f.path))
  {
    var path := DATA_PREFIX + f.path;
    DataSplit(f.path);
    assert path[0] == 'd' && path[1] == 'a' && path[|path| - 1] == f.path[|f.path| - 1];
    BenignIsFixed(path);
    DataBase(f.path);
    NotKnown(path);
    PlaceBelowData(f.path);
  }

  /** A name that ends in white space comes back shorter. */
  lemma DataTrimmed(f: Entry)
    requires OnDisk(f) && '\\' !in f.path && IsSpace(f.path[|f.path| - 1])
    requires Usable(DataMember(f))
    ensures PlaceIn(DataMember(f), "") != f.path
  {
    var rest := StripRight(f.path);
    var path := Normalise(DATA_PREFIX + f.path);
    DataNormalised(f.path);
    assert path[0] == 'd';
    NotKnown(path);
    if path == "data" {
      DataItself();
      assert !IsSpace("data"[3]);
    } else {
      var tail := Join(Kept(Split(rest, '/')), "/");
      PlaceBelowData(tail);
      NormaliseShortens(tail);
      RestShorter(f.path);
    }
  }

  lemma PlaceBelowData(tail: string)
    ensures PlaceOf(DATA_PREFIX + tail) == Normalise(tail)
  {
    assert (DATA_PREFIX + tail)[..5] == DATA_PREFIX && (DATA_PREFIX + tail)[5..] == tail;
  }

  lemma RestShorter(s: string)
    requires s != "" && IsSpace(s[|s| - 1])
    ensures |Join(Kept(Split(StripRight(s), '/')), "/")| < |s|
  {
    var rest := StripRight(s);
    StripRightTrims(s[..|s| - 1]);
    KeptShortens(Split(rest, '/'));
    JoinSplit(rest, '/');
  }

  /** A name that ends in white space or holds a backslash comes back changed. */
  lemma DataAltered(f: Entry)
    requires OnDisk(f) && ('\\' in f.path || IsSpace(f.path[|f.path| - 1]))
    requires Usable(DataMember(f))
    ensures PlaceIn(DataMember(f), "") != f.path
  {
    if '\\' in f.path {
      PlaceHasNoBackslash(DataMember(f));
    } else {
      DataTrimmed(f);
    }
  }

  lemma DataItself()
    ensures PlaceOf("data") == "data"
  {
    SplitAbsent("data", '/');
    BenignIsFixed("data");
  }

  lemma PlaceHasNoBackslash(e: Entry)
    ensures '\\' !in PlaceIn(e, "")
  {
    var relative := StripPrefix(Normalise(e.path), "");
    NormaliseGood(if StartsWith(relative, DATA_PREFIX) then relative[|DATA_PREFIX|..] else relative);
  }

  /** The file's own place is found again exactly for benign paths. */
  lemma DataPlaceIff(f: Entry)
    requires OnDisk(f)
    ensures Usable(DataMember(f)) && PlaceIn(DataMember(f), "") == f.path <==> Benign(f.path)
    ensures Benign(f.path) ==> RoleIn(DataMember(f)) == RoleOf(BaseOf(f.path))
  {
    if '\\' in f.path || IsSpace(f.path[|f.path| - 1]) {
      if Usable(DataMember(f)) { DataAltered(f); }
    } else {
      DataPath(f);
      NormaliseFixedIff(f.path);
    }
  }

  /** The data files that come back as data files: a benign path, and a name that
      is not a manifest's or a database's, nor that of a file whose slot the
      backup leaves free. */
  predicate Ordinary(c: Contents, f: Entry) {
    Benign(f.path) && OrdinaryRole(c, RoleOf(BaseOf(f.path)))
  }

  predicate OrdinaryRole(c: Contents, role: Role) {
    match role
    case DataRole => true
    case EnvRole => c.env
    case XrayRole => c.xray
    case _ => false
  }

  function Back(f: Entry): DataFile {
    DataFile(DATA_PREFIX + f.path, f.path, f.size)
  }

  function AllBack(files: seq<Entry>): (r: seq<DataFile>)
    ensures |r| == |files|
  {
    if files == [] then [] else AllBack(files[..|files| - 1]) + [Back(files[|files| - 1])]
  }

  predicate SlotsOf(c: Contents, plan: Plan) {
    plan.env.Some? == c.env && plan.xray.Some? == c.xray
  }

  lemma SortStep(c: Contents, plan: Plan, f: Entry, role: Role, rank: nat, place: string,
                 read: string -> Option<string>)
    requires SlotsOf(c, plan) && f.path != ""
    ensures var next := Sort(plan, DataMember(f), role, rank, place, read);
            && plan.data <= next.data && |next.data| <= |plan.data| + 1
            && (OrdinaryRole(c, role) && place == f.path ==> next == plan.(data := plan.data + [Back(f)]))
            && (!(OrdinaryRole(c, role) && place == f.path) ==> next.data != plan.data + [Back(f)])
  {
    var next := Sort(plan, DataMember(f), role, rank, place, read);
    assert next.data == plan.data || next.data == plan.data + [DataFile(DATA_PREFIX + f.path, place, f.size)];
    assert next.data == plan.data + [Back(f)] ==> next.data[|plan.data|] == Back(f);
  }

  lemma DataStep(c: Contents, plan: Plan, f: Entry, read: string -> Option<string>)
    requires SlotsOf(c, plan) && OnDisk(f)
    ensures var next := Classify(plan, DataMember(f), "", read);
            && plan.data <= next.data && |next.data| <= |plan.data| + 1
            && (Ordinary(c, f) ==> next == plan.(data := plan.data + [Back(f)]))
            && (!Ordinary(c, f) ==> next.data != plan.data + [Back(f)])
  {
    var e := DataMember(f);
    DataPlaceIff(f);
    SortStep(c, plan, f, RoleIn(e), RankIn(e, ""), PlaceIn(e, ""), read);
  }

  /** The files so far came back as they were if and only if all are ordinary. */
  predicate CameBack(c: Contents, plan: Plan, files: seq<Entry>, next: Plan) {
    && |next.data| <= |files|
    && ((forall f <- files :: Ordinary(c, f)) ==> next == plan.(data := AllBack(files)))
    && (next.data == AllBack(files) ==> forall f <- files :: Ordinary(c, f))
  }

  lemma CameBackStep(c: Contents, plan: Plan, files: seq<Entry>, before: Plan, f: Entry, read: string -> Option<string>)
    requires SlotsOf(c, plan) && OnDisk(f) && CameBack(c, plan, files, before)
    ensures CameBack(c, plan, files + [f], Classify(before, DataMember(f), "", read))
  {
    var all, next := files + [f], Classify(before, DataMember(f), "", read);
    assert all[..|files|] == files;
    assert AllBack(all) == AllBack(files) + [Back(f)];
    if before.data == AllBack(files) {
      assert before == plan.(data := AllBack(files));
      DataStep(c, before, f, read);
    } else {
      NextKeeps(before, f, read);
      StaysDifferent(before.data, AllBack(files), next.data, Back(f));
      assert forall x <- files :: x in all;
    }
  }

  lemma {:induction false} FilesIff(c: Contents, plan: Plan, files: seq<Entry>, read: string -> Option<string>)
    requires SlotsOf(c, plan) && plan.data == [] && forall f <- files :: OnDisk(f)
    ensures CameBack(c, plan, files, PlanFrom(plan, DataMembers(files), "", read))
  {
    if files != [] {
      var init, f := files[..|files| - 1], files[|files| - 1];
      assert files == init + [f];
      assert DataMembers(files) == DataMembers(init) + [DataMember(f)];
      FilesIff(c, plan, init, read);
      PlanFromNext(plan, DataMembers(init), DataMember(f), "", read);
      CameBackStep(c, plan, init, PlanFrom(plan, DataMembers(init), "", read), f, read);
    }
  }

  lemma StaysDifferent(a: seq<DataFile>, b: seq<DataFile>, next: seq<DataFile>, x: DataFile)
    requires a != b && |a| <= |b| && a <= next && |next| <= |a| + 1
    ensures next != b + [x]
  {
    assert (b + [x])[..|b|] == b;
  }

  lemma NextKeeps(plan: Plan, f: Entry, read: string -> Option<string>)
    ensures var next := Classify(plan, DataMember(f), "", read);
            plan.data <= next.data && |next.data| <= |plan.data| + 1
  {
    var e := DataMember(f);
    SortKeeps(plan, e, RoleIn(e), RankIn(e, ""), PlaceIn(e, ""), read);
  }

  lemma SortKeeps(plan: Plan, e: Entry, role: Role, rank: nat, place: string, read: string -> Option<string>)
    ensures var next := Sort(plan, e, role, rank, place, read);
            plan.data <= next.data && |next.data| <= |plan.data| + 1
  {}

  /** Every member of a backup is classified as what it was written as, and every
      data file is mapped back to the path it had, exactly when each data file has
      a benign path and a name that no other slot claims. */
  lemma BackupRoundTripIff(c: Contents, read: string -> Option<string>)
    requires forall f <- c.files :: OnDisk(f)
    ensures IsCommon(Layout(c), "")
    ensures PlanFrom(EMPTY_PLAN, Layout(c), "", read) == FixedPlan(c, read).(data := AllBack(c.files))
       <==> forall f <- c.files :: Ordinary(c, f)
    ensures PlanFrom(EMPTY_PLAN, Layout(c), "", read).data == AllBack(c.files)
       <==> forall f <- c.files :: Ordinary(c, f)
  {
    LayoutHasNoWrapper(c);
    FixedMembersPlan(c, read);
    PlanFromConcat(EMPTY_PLAN, FixedMembers(c), DataMembers(c.files), "", read);
    FilesIff(c, FixedPlan(c, read), c.files, read);
  }

  /** The slots a plan must not lose: those the backup filled itself. */
  predicate Holds(plan: Plan, fixed: Plan) {
    && (fixed.sqlite.Some? ==> plan.sqlite == fixed.sqlite)
    && (fixed.sql.Some? ==> plan.sql == fixed.sql)
    && (fixed.env.Some? ==> plan.env == fixed.env)
    && (fixed.xray.Some? ==> plan.xray == fixed.xray)
  }

  lemma SortHolds(plan: Plan, fixed: Plan, e: Entry, role: Role, rank: nat, place: string,
                  read: string -> Option<string>)
    requires Holds(plan, fixed) && rank < 3
    requires fixed.sqlite.Some? ==> fixed.sqlite.value.rank == 3
    requires fixed.sql.Some? ==> fixed.sql.value.rank == 3
    ensures Holds(Sort(plan, e, role, rank, place, read), fixed)
  {}

  lemma {:induction false} FilesHold(plan: Plan, fixed: Plan, files: seq<Entry>, read: string -> Option<string>)
    requires Holds(plan, fixed)
    requires fixed.sqlite.Some? ==> fixed.sqlite.value.rank == 3
    requires fixed.sql.Some? ==> fixed.sql.value.rank == 3
    ensures Holds(PlanFrom(plan, DataMembers(files), "", read), fixed)
  {
    if files != [] {
      var init, f := files[..|files| - 1], files[|files| - 1];
      FilesHold(plan, fixed, init, read);
      PlanFromNext(plan, DataMembers(init), DataMember(f), "", read);
      var e := DataMember(f);
      if Usable(e) {
        DataRank(f);
        SortHolds(PlanFrom(plan, DataMembers(init), "", read), fixed, e, RoleIn(e), RankIn(e, ""), PlaceIn(e, ""),
          read);
      }
    }
  }

  /** Whatever the data files are called, they never take the slot of a dump, an
      environment file or a configuration that is in the backup. */
  lemma OwnSlotsStand(c: Contents, read: string -> Option<string>)
    ensures Holds(PlanFrom(EMPTY_PLAN, Layout(c), "", read), FixedPlan(c, read))
  {
    FixedMembersPlan(c, read);
    PlanFromConcat(EMPTY_PLAN, FixedMembers(c), DataMembers(c.files), "", read);
    FilesHold(FixedPlan(c, read), FixedPlan(c, read), c.files, read);
  }
}
