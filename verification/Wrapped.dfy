/** Archives whose members all sit in one folder: classified member by member as the
    same archive without the folder. */
module Wrapped {
  import opened Text
  import opened Paths
  import opened Backup
  import opened BackupRoundTrip

  /** A single folder name that normalisation leaves alone. */
  predicate FolderName(folder: string) {
    Benign(folder) && '/' !in folder
  }

  function Below(folder: string, path: string): string {
    folder + "/" + path
  }

  /** Every member moved into the folder. */
  function Wrap(entries: seq<Entry>, folder: string): (r: seq<Entry>)
    ensures |r| == |entries|
    ensures forall i :: 0 <= i < |entries| ==> r[i] == Entry(folder + "/" + entries[i].path, entries[i].size)
  {
    seq(|entries|, i requires 0 <= i < |entries| => Entry(Below(folder, entries[i].path), entries[i].size))
  }

  /** The manifest's parser, asked for a member of the folder. */
  function ReadBelow(folder: string, read: string -> Option<string>): string -> Option<string> {
    (member: string) => read(Below(folder, member))
  }

  // --------------------------------------------------------- normalised below

  /** What is left of a path before the segments are looked at. */
  function Rest(path: string): string {
    StripRight(Slashes(path))
  }

  /** Paths that start with an entry of the archive: no white space, no slash and no
      drive in front, and some segment to go by. */
  predicate Inner(path: string) {
    && path != "" && !IsSpace(path[0]) && path[0] != '/' && path[0] != '\\' && !HasDrive(Slashes(path))
    && (".." in Split(Rest(path), '/') || Kept(Split(Rest(path), '/')) != [])
  }

  function Reduced(parts: seq<string>): string {
    if ".." in parts then "" else Join(Kept(parts), "/")
  }

  lemma InnerNormalise(path: string)
    requires Inner(path)
    ensures Normalise(path) == Reduced(Split(Rest(path), '/'))
  {
    var s := Slashes(path);
    assert s[0] == path[0] && StripLeft(s) == s;
    StripRightAfter([s[0]], s[1..]);
    assert s == [s[0]] + s[1..];
    StripRightTrims(s);
  }

  lemma FolderInFront(folder: string, rest: string)
    requires FolderName(folder)
    ensures folder != "" && !IsSpace(folder[0]) && folder[0] != '/' && '\\' !in folder && GoodSegment(folder)
    ensures !HasDrive(folder + "/" + rest) && Split(folder + "/" + rest, '/') == [folder] + Split(rest, '/')
  {
    SplitAbsent(folder, '/');
    FirstNotSlash(folder);
    SplitFirst(folder, '/', rest);
  }

  /** Below a folder a path normalises to the folder and what it normalised to. */
  lemma BelowNormalise(folder: string, path: string)
    requires FolderName(folder) && Inner(path)
    ensures Normalise(folder + "/" + path) == if Normalise(path) == "" then "" else folder + "/" + Normalise(path)
  {
    var rest, parts := Rest(path), Split(Rest(path), '/');
    FolderInFront(folder, rest);
    SlashesAfter(folder + "/", path);
    StripRightAfter(folder + "/", Slashes(path));
    var s := folder + "/" + Slashes(path);
    assert StripLeft(s) == s && Strip(Slashes(folder + "/" + path)) == folder + "/" + rest;
    InnerNormalise(path);
    KeptAfter(folder, parts);
    assert ".." in [folder] + parts <==> ".." in parts;
    if ".." !in parts {
      var kept := Kept(parts);
      forall x <- kept ensures GoodSegment(x) { assert x in parts; }
      JoinGoodNonEmpty(kept);
      assert ([folder] + kept)[1..] == kept;
    }
  }

  // ------------------------------------------------------ classified the same

  lemma StripFolder(folder: string, path: string)
    requires folder != ""
    ensures StripPrefix(folder + "/" + path, folder) == StripPrefix(path, "")
  {
    assert (folder + "/" + path)[..|folder| + 1] == folder + "/";
    assert (folder + "/" + path)[|folder| + 1..] == path;
  }

  /** A member of the folder has the role, the rank and the place it had without it. */
  lemma SameMember(folder: string, e: Entry)
    requires FolderName(folder) && Inner(e.path)
    ensures var w := Entry(folder + "/" + e.path, e.size);
            && (Usable(w) <==> Usable(e))
            && (Usable(e) ==> RoleIn(w) == RoleIn(e) && RankIn(w, folder) == RankIn(e, "")
                              && PlaceIn(w, folder) == PlaceIn(e, ""))
  {
    BelowNormalise(folder, e.path);
    if Usable(e) {
      BaseBelow(folder, Normalise(e.path));
      StripFolder(folder, Normalise(e.path));
    }
  }

  predicate SamePick(folder: string, p: Option<Pick>, w: Option<Pick>) {
    && (p.Some? <==> w.Some?)
    && (p.Some? ==> w.value == Pick(folder + "/" + p.value.member, p.value.size, p.value.rank))
  }

  predicate SameName(folder: string, p: Option<string>, w: Option<string>) {
    (p.Some? <==> w.Some?) && (p.Some? ==> w.value == folder + "/" + p.value)
  }

  predicate SameData(folder: string, p: seq<DataFile>, w: seq<DataFile>) {
    && |p| == |w|
    && forall i :: 0 <= i < |p| ==> w[i] == DataFile(folder + "/" + p[i].member, p[i].destination, p[i].size)
  }

  /** Two plans alike but for the folder in front of every member: the same slots,
      ranks, sizes and destinations. */
  predicate SamePlan(folder: string, p: Plan, w: Plan) {
    && SamePick(folder, p.sqlite, w.sqlite) && SamePick(folder, p.sql, w.sql)
    && SameName(folder, p.env, w.env) && SameName(folder, p.xray, w.xray)
    && SameData(folder, p.data, w.data) && p.manifest == w.manifest
  }

  lemma AddSame(folder: string, p: Plan, w: Plan, e: Entry, place: string)
    requires SamePlan(folder, p, w)
    ensures SamePlan(folder, AddData(p, e, place), AddData(w, Entry(folder + "/" + e.path, e.size), place))
  {}

  lemma SortSame(folder: string, p: Plan, w: Plan, e: Entry, role: Role, rank: nat, place: string,
                 read: string -> Option<string>)
    requires SamePlan(folder, p, w)
    ensures SamePlan(folder, Sort(p, e, role, rank, place, ReadBelow(folder, read)),
                     Sort(w, Entry(folder + "/" + e.path, e.size), role, rank, place, read))
  {
    assert Below(folder, e.path) == folder + "/" + e.path;
    AddSame(folder, p, w, e, place);
  }

  lemma ClassifySame(folder: string, p: Plan, w: Plan, e: Entry, read: string -> Option<string>)
    requires FolderName(folder) && Inner(e.path) && SamePlan(folder, p, w)
    ensures SamePlan(folder, Classify(p, e, "", ReadBelow(folder, read)),
                     Classify(w, Entry(folder + "/" + e.path, e.size), folder, read))
  {
    SameMember(folder, e);
    if Usable(e) {
      SortSame(folder, p, w, e, RoleIn(e), RankIn(e, ""), PlaceIn(e, ""), read);
    }
  }

  predicate AllInner(entries: seq<Entry>) {
    forall e <- entries :: Inner(e.path)
  }

  lemma WrapNext(entries: seq<Entry>, e: Entry, folder: string)
    ensures Wrap(entries + [e], folder) == Wrap(entries, folder) + [Entry(folder + "/" + e.path, e.size)]
  {}

  lemma WrapStep(folder: string, entries: seq<Entry>, e: Entry, read: string -> Option<string>)
    requires FolderName(folder) && Inner(e.path)
    requires SamePlan(folder, PlanFrom(EMPTY_PLAN, entries, "", ReadBelow(folder, read)),
                      PlanFrom(EMPTY_PLAN, Wrap(entries, folder), folder, read))
    ensures SamePlan(folder, PlanFrom(EMPTY_PLAN, entries + [e], "", ReadBelow(folder, read)),
                     PlanFrom(EMPTY_PLAN, Wrap(entries + [e], folder), folder, read))
  {
    WrapNext(entries, e, folder);
    PlanFromNext(EMPTY_PLAN, entries, e, "", ReadBelow(folder, read));
    PlanFromNext(EMPTY_PLAN, Wrap(entries, folder), Entry(folder + "/" + e.path, e.size), folder, read);
    ClassifySame(folder, PlanFrom(EMPTY_PLAN, entries, "", ReadBelow(folder, read)),
                 PlanFrom(EMPTY_PLAN, Wrap(entries, folder), folder, read), e, read);
  }

  /** Classified as the same archive without the folder, the manifest included. */
  lemma {:induction false} WrapPlansSame(folder: string, entries: seq<Entry>, read: string -> Option<string>)
    requires FolderName(folder) && AllInner(entries)
    ensures SamePlan(folder, PlanFrom(EMPTY_PLAN, entries, "", ReadBelow(folder, read)),
                     PlanFrom(EMPTY_PLAN, Wrap(entries, folder), folder, read))
  {
    if entries != [] {
      var init, e := entries[..|entries| - 1], entries[|entries| - 1];
      assert entries == init + [e];
      WrapPlansSame(folder, init, read);
      WrapStep(folder, init, e, read);
    }
  }

  /** The folder is found. */
  lemma WrapIsCommon(folder: string, entries: seq<Entry>)
    requires FolderName(folder) && AllInner(entries) && exists e <- entries :: Usable(e)
    ensures IsCommon(Wrap(entries, folder), folder)
  {
    var wrapped := Wrap(entries, folder);
    forall w <- wrapped ensures Usable(w) ==> Under(folder, Normalise(w.path)) {
      var i :| 0 <= i < |wrapped| && wrapped[i] == w;
      BelowNormalise(folder, entries[i].path);
    }
    var e :| e in entries && Usable(e);
    var i :| 0 <= i < |entries| && entries[i] == e;
    BelowNormalise(folder, e.path);
    assert wrapped[i] in wrapped && Usable(wrapped[i]);
  }

  // ------------------------------------------------------- a backup in a folder

  lemma BenignIsInner(path: string)
    requires Benign(path)
    ensures Inner(path)
  {
    FirstNotSlash(path);
    StripTrimmed(path);
    KeptAll(Split(path, '/'));
  }

  lemma DataIsInner(relative: string)
    ensures Inner(DATA_PREFIX + relative)
  {
    var path, rest := DATA_PREFIX + relative, StripRight(Slashes(relative));
    DataCleaned(relative);
    SlashesAfter(DATA_PREFIX, relative);
    StripRightAfter(DATA_PREFIX, Slashes(relative));
    DataSplit(rest);
    KeptAfter("data", Split(rest, '/'));
    assert path[0] == 'd' && Slashes(path)[1] == 'a';
  }

  lemma FixedIsInner(folder: string, name: string)
    requires SafeName(folder) && SafeName(name) && |folder| >= 2 && Lower(name) == name
    ensures Inner(folder + "/" + name)
  {
    FixedPath(folder, name);
    NormaliseFixedIff(folder + "/" + name);
    BenignIsInner(folder + "/" + name);
  }

  lemma ManifestIsInner()
    ensures Inner(MANIFEST_NAME)
  {
    ManifestNames();
    RootName(MANIFEST_NAME);
    NormaliseFixedIff(MANIFEST_NAME);
    BenignIsInner(MANIFEST_NAME);
  }

  lemma MembersAreInner()
    ensures Inner(MANIFEST_NAME) && Inner(DB_MEMBER_SQLITE) && Inner(DB_MEMBER_SQL)
    ensures Inner(ENV_MEMBER) && Inner(XRAY_MEMBER)
  {
    ManifestIsInner();
    SqliteNames();
    FixedIsInner("db", "db.sqlite3");
    SqlNames();
    FixedIsInner("db", "dump.sql");
    EnvNames();
    FixedIsInner("env", ".env");
    XrayNames();
    FixedIsInner("xray", "xray_config.json");
  }

  lemma {:induction false} FilesAreInner(files: seq<Entry>)
    ensures AllInner(DataMembers(files))
  {
    if files != [] {
      FilesAreInner(files[..|files| - 1]);
      DataIsInner(files[|files| - 1].path);
    }
  }

  lemma LayoutIsInner(c: Contents)
    ensures AllInner(Layout(c))
  {
    MembersAreInner();
    FilesAreInner(c.files);
  }

  lemma {:induction false} AllBackAt(files: seq<Entry>, i: nat)
    requires i < |files|
    ensures AllBack(files)[i] == DataFile(DATA_PREFIX + files[i].path, files[i].path, files[i].size)
  {
    if i < |files| - 1 { AllBackAt(files[..|files| - 1], i); }
  }

  /** The data files of a plan are those of a backup in this folder, each bound for the
      path it was taken from. */
  predicate DataBackIn(folder: string, files: seq<Entry>, data: seq<DataFile>) {
    && |data| == |files|
    && forall i :: 0 <= i < |files| ==>
         data[i] == DataFile(folder + "/" + DATA_PREFIX + files[i].path, files[i].path, files[i].size)
  }

  lemma BelowInjective(folder: string, a: string, b: string)
    requires folder + "/" + a == folder + "/" + b
    ensures a == b
  {
    assert (folder + "/" + a)[|folder| + 1..] == a;
    assert (folder + "/" + b)[|folder| + 1..] == b;
  }

  lemma DataBackIff(folder: string, files: seq<Entry>, p: seq<DataFile>, w: seq<DataFile>)
    requires SameData(folder, p, w)
    ensures DataBackIn(folder, files, w) <==> p == AllBack(files)
  {
    if p == AllBack(files) {
      forall i | 0 <= i < |files|
        ensures w[i] == DataFile(folder + "/" + DATA_PREFIX + files[i].path, files[i].path, files[i].size)
      {
        AllBackAt(files, i);
        Regrouped(folder, files[i].path);
      }
    }
    if DataBackIn(folder, files, w) {
      forall i | 0 <= i < |files| ensures p[i] == AllBack(files)[i] {
        AllBackAt(files, i);
        Regrouped(folder, files[i].path);
        BelowInjective(folder, p[i].member, DATA_PREFIX + files[i].path);
      }
    }
  }

  lemma Regrouped(folder: string, path: string)
    ensures folder + "/" + DATA_PREFIX + path == folder + "/" + (DATA_PREFIX + path)
  {}

  /** A backup packed inside any one folder reads back as it would without: the folder is
      found, every slot, rank and destination is the same, and the data files return to
      their own paths exactly when they do without it. */
  lemma WrappedRoundTrip(c: Contents, folder: string, read: string -> Option<string>)
    requires FolderName(folder) && forall f <- c.files :: OnDisk(f)
    ensures var w := PlanFrom(EMPTY_PLAN, Wrap(Layout(c), folder), folder, read);
            && IsCommon(Wrap(Layout(c), folder), folder)
            && SamePlan(folder, PlanFrom(EMPTY_PLAN, Layout(c), "", ReadBelow(folder, read)), w)
            && (DataBackIn(folder, c.files, w.data) <==> forall f <- c.files :: Ordinary(c, f))
  {
    var inside := ReadBelow(folder, read);
    LayoutIsInner(c);
    ManifestIsRead(Fixed(c, MANIFEST_NAME).size);
    assert Layout(c)[0] == Fixed(c, MANIFEST_NAME);
    WrapIsCommon(folder, Layout(c));
    WrapPlansSame(folder, Layout(c), read);
    BackupRoundTripIff(c, inside);
    DataBackIff(folder, c.files, PlanFrom(EMPTY_PLAN, Layout(c), "", inside).data,
                PlanFrom(EMPTY_PLAN, Wrap(Layout(c), folder), folder, read).data);
  }
}
