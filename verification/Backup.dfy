/** Backup archives: what each member of an archive is, possibly one of another
    panel. Members are names and sizes; contents stay in the archive. */
module Backup {
  import opened Text
  import opened Paths

  datatype Entry = Entry(path: string, size: nat)

  datatype Pick = Pick(member: string, size: nat, rank: nat)

  datatype DataFile = DataFile(member: string, destination: string, size: nat)

  datatype Plan = Plan(
    sqlite: Option<Pick>,
    sql: Option<Pick>,
    env: Option<string>,
    xray: Option<string>,
    data: seq<DataFile>,
    manifest: Option<string>)

  const EMPTY_PLAN: Plan := Plan(None, None, None, None, [], None)

  const MANIFEST_NAME: string := "xenith-backup.json"
  const DB_MEMBER_SQLITE: string := "db" + "/" + "db.sqlite3"
  const DB_MEMBER_SQL: string := "db" + "/" + "dump.sql"
  const ENV_MEMBER: string := "env" + "/" + ".env"
  const XRAY_MEMBER: string := "xray" + "/" + "xray_config.json"
  const DATA_PREFIX: string := "data/"

  // ------------------------------------------------------------ classification

  function LowerChar(c: char): char {
    if 'A' <= c <= 'Z' then c - 'A' + 'a' else c
  }

  function Lower(s: string): (r: string)
    ensures |r| == |s| && forall i :: 0 <= i < |s| ==> r[i] == LowerChar(s[i])
  {
    seq(|s|, i requires 0 <= i < |s| => LowerChar(s[i]))
  }

  /** `os.path.basename`. */
  function Basename(p: string): string {
    var slash := LastIndex(p, '/');
    if slash.None? then p else p[slash.value + 1..]
  }

  datatype Role = ManifestRole | SqliteRole | SqlRole | EnvRole | XrayRole | DataRole

  /** What a base name in lower case makes of a member, in the order tried. */
  function RoleOf(base: string): Role {
    if base == MANIFEST_NAME then ManifestRole
    else if EndsWith(base, ".sqlite3") || EndsWith(base, ".sqlite") || EndsWith(base, ".db") then SqliteRole
    else if EndsWith(base, ".sql") || EndsWith(base, ".sql.gz") then SqlRole
    else if base == ".env" then EnvRole
    else if base == "xray_config.json" then XrayRole
    else DataRole
  }

  const KNOWN_PREFIXES: seq<string> := [
    "var/lib/marzban/", "var/lib/xenith/", "opt/marzban/", "opt/xenith/", "marzban-data/", "marzban/", "xenith/"]

  /** The first known prefix that fits is dropped. */
  function DropKnown(path: string, prefixes: seq<string>): string {
    if prefixes == [] then path
    else if StartsWith(path, prefixes[0]) then path[|prefixes[0]|..]
    else DropKnown(path, prefixes[1..])
  }

  /** `_strip_prefix`. */
  function StripPrefix(path: string, common: string): string {
    DropKnown(if common != "" && StartsWith(path, common + "/") then path[|common| + 1..] else path, KNOWN_PREFIXES)
  }

  /** `_database_rank`. */
  function Rank(relative: string, base: string): (r: nat)
    ensures r == 3 <==> StartsWith(relative, "db/")
  {
    if StartsWith(relative, "db/") then 3
    else if base == "db.sqlite3" || base == "dump.sql" || base == "marzban.db" then 2
    else if '/' !in relative then 1
    else 0
  }

  function Better(current: Option<Pick>, entry: Entry, rank: nat): Option<Pick> {
    if current.None? || rank > current.value.rank then Some(Pick(entry.path, entry.size, rank)) else current
  }

  function BaseOf(path: string): string {
    Lower(Basename(path))
  }

  /** Where a member that is plain data goes; empty if nowhere. */
  function PlaceOf(relative: string): string {
    Normalise(if StartsWith(relative, DATA_PREFIX) then relative[|DATA_PREFIX|..] else relative)
  }

  function AddData(plan: Plan, entry: Entry, place: string): Plan {
    if place == "" then plan else plan.(data := plan.data + [DataFile(entry.path, place, entry.size)])
  }

  /** Where one member goes, by its role, its rank as a database and its place
      as a data file. `read` is the manifest's parser. */
  function Sort(plan: Plan, entry: Entry, role: Role, rank: nat, place: string, read: string -> Option<string>): Plan {
    match role
    case ManifestRole => plan.(manifest := read(entry.path))
    case SqliteRole => plan.(sqlite := Better(plan.sqlite, entry, rank))
    case SqlRole => plan.(sql := Better(plan.sql, entry, rank))
    case EnvRole => if plan.env.None? then plan.(env := Some(entry.path)) else AddData(plan, entry, place)
    case XrayRole => if plan.xray.None? then plan.(xray := Some(entry.path)) else AddData(plan, entry, place)
    case DataRole => AddData(plan, entry, place)
  }

  function RoleIn(e: Entry): Role {
    RoleOf(BaseOf(Normalise(e.path)))
  }

  function RankIn(e: Entry, common: string): nat {
    Rank(StripPrefix(Normalise(e.path), common), BaseOf(Normalise(e.path)))
  }

  function PlaceIn(e: Entry, common: string): string {
    PlaceOf(StripPrefix(Normalise(e.path), common))
  }

  predicate Usable(e: Entry) {
    Normalise(e.path) != ""
  }

  /** One turn of the loop in `_plan`. */
  function Classify(plan: Plan, e: Entry, common: string, read: string -> Option<string>): Plan {
    if !Usable(e) then plan else Sort(plan, e, RoleIn(e), RankIn(e, common), PlaceIn(e, common), read)
  }

  function PlanFrom(plan: Plan, entries: seq<Entry>, common: string, read: string -> Option<string>): Plan {
    if entries == [] then plan
    else Classify(PlanFrom(plan, entries[..|entries| - 1], common, read), entries[|entries| - 1], common, read)
  }

  // --------------------------------------------------------- the wrapper folder

  predicate Under(folder: string, path: string) {
    StartsWith(path, folder + "/")
  }

  /** A single top-level directory that every usable member sits under. */
  predicate Wrapper(entries: seq<Entry>, folder: string) {
    && folder != "" && '/' !in folder
    && (exists e <- entries :: Usable(e))
    && (forall e <- entries :: Usable(e) ==> Under(folder, Normalise(e.path)))
  }

  /** What `_common_directory` should answer. */
  ghost predicate IsCommon(entries: seq<Entry>, common: string) {
    if common == "" then forall folder :: !Wrapper(entries, folder) else Wrapper(entries, common)
  }

  function Head(path: string): string {
    path[..FirstIndex(path, '/')]
  }

  lemma UnderHead(folder: string, path: string)
    requires '/' !in folder && Under(folder, path)
    ensures Head(path) == folder && FirstIndex(path, '/') < |path|
  {
    var tail := path[|folder| + 1..];
    assert path == folder + "/" + tail;
    FirstIndexIs(folder, '/', tail);
  }

  lemma HeadUnder(path: string)
    requires FirstIndex(path, '/') < |path|
    ensures Under(Head(path), path)
  {
    var i := FirstIndex(path, '/');
    TakeNext(path, i);
  }

  /** A normalised path neither starts nor ends with a slash. */
  lemma {:induction false} TailNonEmpty(path: string)
    requires path != "" && AllGood(Split(path, '/')) && FirstIndex(path, '/') < |path|
    ensures FirstIndex(path, '/') + 1 < |path| && Head(path) != ""
  {
    var i := FirstIndex(path, '/');
    var tail := path[i + 1..];
    SplitsAt(path, i);
    SplitFirst(path[..i], '/', tail);
    var parts := Split(path, '/');
    assert GoodSegment(parts[0]) && GoodSegment(parts[1]);
    assert Split("", '/') == [""];
  }

  /** What the loop of `_common_directory` knows about the directories seen. */
  predicate Seen(entries: seq<Entry>, tops: set<string>) {
    && |tops| <= 1
    && (tops == {} ==> forall e <- entries :: !Usable(e))
    && (forall t <- tops :: Wrapper(entries, t))
  }

  /** `_common_directory`. */
  method CommonDirectory(entries: seq<Entry>) returns (common: string)
    ensures IsCommon(entries, common)
  {
    var tops: set<string> := {};
    for i := 0 to |entries|
      invariant Seen(entries[..i], tops)
    {
      var path := NormalisePath(entries[i].path);
      TakeNext(entries, i);
      if path == "" {
        SeenUnusable(entries[..i], entries[i], tops);
        continue;
      }
      var slash := FirstIndex(path, '/');
      NormalisedHead(entries[i]);
      if slash == |path| || path[slash + 1..] == "" {
        RootFileNoWrapper(entries, entries[i]);
        return "";
      }
      var before := tops;
      tops := tops + {path[..slash]};
      if |tops| > 1 {
        TwoTopsNoWrapper(entries, i, before);
        return "";
      }
      SeenUsable(entries[..i], entries[i], before);
    }
    assert entries[..|entries|] == entries;
    if |tops| == 1 {
      var top :| top in tops;
      return top;
    }
    return "";
  }

  lemma NormalisedHead(e: Entry)
    requires Usable(e)
    ensures var path := Normalise(e.path);
            FirstIndex(path, '/') < |path| ==>
              path[FirstIndex(path, '/') + 1..] != "" && Head(path) != "" && Under(Head(path), path)
  {
    var path := Normalise(e.path);
    NormaliseGood(e.path);
    if FirstIndex(path, '/') < |path| {
      TailNonEmpty(path);
      HeadUnder(path);
    }
  }

  lemma SeenUnusable(entries: seq<Entry>, e: Entry, tops: set<string>)
    requires Seen(entries, tops) && !Usable(e)
    ensures Seen(entries + [e], tops)
  {
    forall t <- tops ensures Wrapper(entries + [e], t) {
      var u :| u in entries && Usable(u);
      assert u in entries + [e];
    }
  }

  lemma SeenUsable(entries: seq<Entry>, e: Entry, tops: set<string>)
    requires Seen(entries, tops) && Usable(e) && FirstIndex(Normalise(e.path), '/') < |Normalise(e.path)|
    requires |tops + {Head(Normalise(e.path))}| <= 1
    ensures Seen(entries + [e], tops + {Head(Normalise(e.path))})
  {
    var top := Head(Normalise(e.path));
    NormalisedHead(e);
    OneTop(tops + {top}, top);
    assert e in entries + [e];
    assert forall x <- entries :: Usable(x) ==> Under(top, Normalise(x.path)) by {
      if tops != {} {
        assert top in tops;
      }
    }
  }

  lemma OneTop(tops: set<string>, top: string)
    requires |tops| <= 1 && top in tops
    ensures tops == {top}
  {
    assert |tops - {top}| == 0;
  }

  /** A usable member at the root rules out every wrapper. */
  lemma RootFileNoWrapper(entries: seq<Entry>, e: Entry)
    requires e in entries && Usable(e) && FirstIndex(Normalise(e.path), '/') == |Normalise(e.path)|
    ensures IsCommon(entries, "")
  {
    forall folder | Wrapper(entries, folder) ensures false {
      UnderHead(folder, Normalise(e.path));
    }
  }

  lemma TwoTopsNoWrapper(entries: seq<Entry>, i: nat, tops: set<string>)
    requires i < |entries| && Usable(entries[i]) && Seen(entries[..i], tops)
    requires |tops + {Head(Normalise(entries[i].path))}| > 1
    ensures IsCommon(entries, "")
  {
    var top := Head(Normalise(entries[i].path));
    assert top in tops ==> tops + {top} == tops;
    assert tops == {} ==> tops + {top} == {top};
    var t :| t in tops;
    var e :| e in entries[..i] && Usable(e);
    forall folder | Wrapper(entries, folder) ensures false {
      assert e in entries && entries[i] in entries;
      UnderHead(folder, Normalise(e.path));
      UnderHead(folder, Normalise(entries[i].path));
      UnderHead(t, Normalise(e.path));
    }
  }

  /** There is only one right answer. */
  lemma CommonUnique(entries: seq<Entry>, a: string, b: string)
    requires IsCommon(entries, a) && IsCommon(entries, b)
    ensures a == b
  {
    if a != "" && b != "" {
      var e :| e in entries && Usable(e);
      UnderHead(a, Normalise(e.path));
      UnderHead(b, Normalise(e.path));
    }
  }

  lemma PlanFromNext(plan: Plan, entries: seq<Entry>, e: Entry, common: string, read: string -> Option<string>)
    ensures PlanFrom(plan, entries + [e], common, read) ==
            Classify(PlanFrom(plan, entries, common, read), e, common, read)
  {
    assert (entries + [e])[..|entries|] == entries;
  }

  /** `_plan`. */
  method BuildPlan(entries: seq<Entry>, read: string -> Option<string>) returns (plan: Plan)
    ensures forall common :: IsCommon(entries, common) ==> plan == PlanFrom(EMPTY_PLAN, entries, common, read)
  {
    var common := CommonDirectory(entries);
    plan := EMPTY_PLAN;
    for i := 0 to |entries|
      invariant plan == PlanFrom(EMPTY_PLAN, entries[..i], common, read)
    {
      TakeNext(entries, i);
      PlanFromNext(EMPTY_PLAN, entries[..i], entries[i], common, read);
      plan := ClassifyMember(plan, entries[i], common, read);
    }
    assert entries[..|entries|] == entries;
    forall c | IsCommon(entries, c) ensures c == common {
      CommonUnique(entries, c, common);
    }
  }

  /** The body of the loop, member by member as `_plan` does it. */
  method ClassifyMember(before: Plan, entry: Entry, common: string, read: string -> Option<string>) returns (plan: Plan)
    ensures plan == Classify(before, entry, common, read)
  {
    plan := before;
    var path := NormalisePath(entry.path);
    if path == "" { return; }
    var base, relative := BaseOf(path), StripPrefix(path, common);
    var role := RoleOf(base);
    if role == ManifestRole {
      plan := plan.(manifest := read(entry.path));
    } else if role == SqliteRole {
      var rank := Rank(relative, base);
      if plan.sqlite.None? || rank > plan.sqlite.value.rank {
        plan := plan.(sqlite := Some(Pick(entry.path, entry.size, rank)));
      }
    } else if role == SqlRole {
      var rank := Rank(relative, base);
      if plan.sql.None? || rank > plan.sql.value.rank {
        plan := plan.(sql := Some(Pick(entry.path, entry.size, rank)));
      }
    } else if role == EnvRole && plan.env.None? {
      plan := plan.(env := Some(entry.path));
    } else if role == XrayRole && plan.xray.None? {
      plan := plan.(xray := Some(entry.path));
    } else {
      var destination := NormalisePath(
        if StartsWith(relative, DATA_PREFIX) then relative[|DATA_PREFIX|..] else relative);
      if destination != "" {
        plan := plan.(data := plan.data + [DataFile(entry.path, destination, entry.size)]);
      }
    }
  }
}
