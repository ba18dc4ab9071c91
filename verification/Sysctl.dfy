/** The sysctl.d file the panel owns: validation of settings, the printer of the
    file and its parser. The catalogue of tunables is a parameter. */
module Sysctl {
  import opened Text

  datatype Kind = IntKind | IntsKind | TextKind

  datatype Tunable = Tunable(key: string, section: string, kind: Kind)

  /** SECTIONS (identifier and title) and TUNABLES, both in order, and the lines
      of HEADER. */
  datatype Catalogue = Catalogue(header: seq<string>, sections: seq<(string, string)>, tunables: seq<Tunable>)

  /** What the catalogue's spelling must satisfy for its keys and titles to fit
      on a line of the file. Repetitions are harmless. */
  predicate WellFormed(cat: Catalogue) {
    && (forall l <- cat.header :: IsComment(l))
    && (forall s <- cat.sections :: '\n' !in s.1)
    && (forall t <- cat.tunables :: GoodKey(t.key))
  }

  predicate IsComment(line: string) {
    line != "" && line[0] == '#' && '\n' !in line
  }

  predicate GoodKey(key: string) {
    key != "" && forall c <- key :: !IsSpace(c) && c != '#' && c != '='
  }

  /** `BY_KEY.get(key)`: of two tunables with one key the later stays. */
  function ByKey(ts: seq<Tunable>, key: string): (t: Option<Tunable>)
    ensures t.Some? <==> exists x <- ts :: x.key == key
    ensures t.Some? ==> t.value in ts && t.value.key == key
  {
    if ts == [] then None
    else if ts[|ts| - 1].key == key then Some(ts[|ts| - 1])
    else
      var t := ByKey(ts[..|ts| - 1], key);
      assert t.None? ==> forall x <- ts :: x in ts[..|ts| - 1] || x == ts[|ts| - 1];
      t
  }

  // --------------------------------------------------------------------- words

  /** Length of the leading run without white space. */
  function WordLength(s: string): (n: nat)
    ensures n <= |s| && forall c <- s[..n] :: !IsSpace(c)
    ensures n < |s| ==> IsSpace(s[n])
    ensures s != "" && !IsSpace(s[0]) ==> n > 0
  {
    if s == "" || IsSpace(s[0]) then 0
    else
      assert forall c <- s[1..] :: c in s;
      1 + WordLength(s[1..])
  }

  predicate IsWord(w: string) {
    w != "" && forall c <- w :: !IsSpace(c)
  }

  /** `s.split()`. */
  function Words(s: string): (ws: seq<string>)
    ensures forall w <- ws :: IsWord(w)
    decreases |s|
  {
    if s == "" then []
    else if IsSpace(s[0]) then Words(s[1..])
    else [s[..WordLength(s)]] + Words(s[WordLength(s)..])
  }

  /** `" ".join(s.split())`. */
  function Normal(s: string): string {
    Join(Words(s), " ")
  }

  lemma {:induction false} WordLengthIs(w: string, rest: string)
    requires IsWord(w) && (rest == "" || IsSpace(rest[0]))
    ensures WordLength(w + rest) == |w|
  {
    if |w| == 1 {
      assert (w + rest)[1..] == rest;
    } else {
      assert (w + rest)[1..] == w[1..] + rest;
      WordLengthIs(w[1..], rest);
    }
  }

  /** Splitting undoes joining words with single spaces. */
  lemma {:induction false} WordsJoin(ws: seq<string>)
    requires forall w <- ws :: IsWord(w)
    ensures Words(Join(ws, " ")) == ws
  {
    if ws != [] {
      var w := ws[0];
      var rest := if |ws| == 1 then "" else " " + Join(ws[1..], " ");
      var s := w + rest;
      assert Join(ws, " ") == s;
      WordLengthIs(w, rest);
      assert s[..|w|] == w && s[|w|..] == rest && s[0] == w[0];
      WordsJoin(ws[1..]);
      assert |ws| > 1 ==> rest[1..] == Join(ws[1..], " ");
      assert ws == [w] + ws[1..];
    }
  }

  lemma NormalIdempotent(s: string)
    ensures Normal(Normal(s)) == Normal(s)
  {
    WordsJoin(Words(s));
  }

  lemma {:induction false} NormalIsTrimmed(ws: seq<string>)
    requires forall w <- ws :: IsWord(w)
    ensures Trimmed(Join(ws, " ")) && (ws != [] ==> Join(ws, " ") != "")
  {
    assert ws != [] ==> IsWord(ws[0]);
    if |ws| > 1 {
      NormalIsTrimmed(ws[1..]);
      var s, tail := Join(ws, " "), Join(ws[1..], " ");
      assert s[0] == ws[0][0] && s[|s| - 1] == tail[|tail| - 1];
    }
  }

  // ---------------------------------------------------------------- validation

  datatype Error = UnknownKey(key: string) | NeedsValue(key: string) | BadValue(value: string, key: string) | NoSettings

  datatype Result<+T> = Ok(value: T) | Err(error: Error)

  predicate IsInt(s: string) {
    var digits := if s != "" && s[0] == '-' then s[1..] else s;
    1 <= |digits| <= 19 && forall c <- digits :: IsDigit(c)
  }

  predicate IsInts(s: string) {
    var parts := Split(s, ' ');
    |parts| <= 8 && forall p <- parts :: IsInt(p)
  }

  predicate IsNameChar(c: char) {
    IsDigit(c) || 'A' <= c <= 'Z' || 'a' <= c <= 'z' || c == '_'
  }

  predicate IsName(s: string) {
    1 <= |s| <= 32 && IsNameChar(s[0]) && forall c <- s :: IsNameChar(c) || c == '.' || c == '-'
  }

  /** VALUE_PATTERNS. */
  predicate Matches(kind: Kind, s: string) {
    match kind
    case IntKind => IsInt(s)
    case IntsKind => IsInts(s)
    case TextKind => IsName(s)
  }

  /** `validate`; the value is already `str(value)`, or None. */
  function Validate(cat: Catalogue, key: string, value: Option<string>): Result<string> {
    var t := ByKey(cat.tunables, key);
    if t.None? then Err(UnknownKey(key))
    else if value.None? || Normal(value.value) == "" then Err(NeedsValue(key))
    else if !Matches(t.value.kind, Normal(value.value)) then Err(BadValue(Normal(value.value), key))
    else Ok(Normal(value.value))
  }

  /** The dictionary comprehension of `validate_many`, items in their order. */
  function ValidateItems(cat: Catalogue, items: seq<(string, Option<string>)>): Result<map<string, string>> {
    if items == [] then Ok(map[])
    else
      var init := ValidateItems(cat, items[..|items| - 1]);
      var (key, value) := items[|items| - 1];
      if init.Err? then init
      else
        var v := Validate(cat, key, value);
        if v.Err? then Err(v.error) else Ok(init.value[key := v.value])
  }

  /** `validate_many`. */
  function ValidateMany(cat: Catalogue, items: seq<(string, Option<string>)>): Result<map<string, string>> {
    if items == [] then Err(NoSettings) else ValidateItems(cat, items)
  }

  /** A map of settings the panel is willing to write. */
  predicate Accepted(cat: Catalogue, values: map<string, string>) {
    forall key <- values :: AcceptedValue(cat, key, values[key])
  }

  predicate AcceptedValue(cat: Catalogue, key: string, value: string) {
    Validate(cat, key, Some(value)) == Ok(value)
  }

  /** Validation accepts its own results. */
  lemma ValidateIdempotent(cat: Catalogue, key: string, value: Option<string>)
    requires Validate(cat, key, value).Ok?
    ensures AcceptedValue(cat, key, Validate(cat, key, value).value)
  {
    NormalIdempotent(value.value);
  }

  lemma {:induction false} ValidatedIsAccepted(cat: Catalogue, items: seq<(string, Option<string>)>)
    requires ValidateItems(cat, items).Ok?
    ensures Accepted(cat, ValidateItems(cat, items).value)
    ensures forall item <- items :: item.0 in ValidateItems(cat, items).value
  {
    if items != [] {
      var init, last := items[..|items| - 1], items[|items| - 1];
      ValidatedIsAccepted(cat, init);
      ValidateIdempotent(cat, last.0, last.1);
      assert forall item <- items :: item in init || item == last;
    }
  }

  lemma DigitsPlain(s: string, c: char)
    requires IsInt(s) && !IsDigit(c) && c != '-'
    ensures c !in s
  {
    if s[0] == '-' {
      assert s == ['-'] + s[1..];
    }
  }

  // -------------------------------------------------- which values are accepted

  /** What validate answers: the words of the value with single spaces between them, for
      a key of the catalogue and a value that fits its kind; otherwise the reason. */
  lemma ValidateOutcome(cat: Catalogue, key: string, value: Option<string>)
    ensures var r, known := Validate(cat, key, value), exists t <- cat.tunables :: t.key == key;
            var words := if value.Some? then Words(value.value) else [];
            && (r == Err(UnknownKey(key)) <==> !known)
            && (r == Err(NeedsValue(key)) <==> known && words == [])
            && (r.Ok? <==> known && words != [] && Matches(ByKey(cat.tunables, key).value.kind, Join(words, " ")))
            && (r.Ok? ==> Words(r.value) == words && r.value == Join(words, " "))
            && (r.Err? ==> r.error in {UnknownKey(key), NeedsValue(key), BadValue(Join(words, " "), key)})
  {
    if value.Some? {
      WordsJoin(Words(value.value));
      NormalIsTrimmed(Words(value.value));
    }
  }

  /** What one more item makes of the result so far. */
  lemma ItemsNext(cat: Catalogue, items: seq<(string, Option<string>)>)
    requires items != []
    ensures var n := |items| - 1;
            var before, last := ValidateItems(cat, items[..n]), Validate(cat, items[n].0, items[n].1);
            ValidateItems(cat, items) == if before.Err? then before
                                         else if last.Err? then Err(last.error)
                                         else Ok(before.value[items[n].0 := last.value])
  {}

  predicate Passes(cat: Catalogue, item: (string, Option<string>)) {
    Validate(cat, item.0, item.1).Ok?
  }

  /** All settings are accepted if each of them is. */
  lemma {:induction false} AllPassIff(cat: Catalogue, items: seq<(string, Option<string>)>)
    ensures ValidateItems(cat, items).Ok? <==> forall item <- items :: Passes(cat, item)
  {
    if items != [] {
      var n := |items| - 1;
      AllPassIff(cat, items[..n]);
      ItemsNext(cat, items);
      assert items == items[..n] + [items[n]];
      assert Passes(cat, items[n]) <==> Validate(cat, items[n].0, items[n].1).Ok?;
    }
  }

  /** The first setting that is refused is the error. */
  lemma {:induction false} FirstRefused(cat: Catalogue, items: seq<(string, Option<string>)>) returns (i: nat)
    requires ValidateItems(cat, items).Err?
    ensures i < |items| && Validate(cat, items[i].0, items[i].1) == Err(ValidateItems(cat, items).error)
    ensures forall item <- items[..i] :: Passes(cat, item)
  {
    var n := |items| - 1;
    ItemsNext(cat, items);
    if ValidateItems(cat, items[..n]).Err? {
      i := FirstRefused(cat, items[..n]);
      assert items[..n][..i] == items[..i];
    } else {
      i := n;
      AllPassIff(cat, items[..n]);
    }
  }

  /** Otherwise every key given has its validated value, the last if given twice. */
  lemma {:induction false} LastGivenStands(cat: Catalogue, items: seq<(string, Option<string>)>, i: int)
    requires ValidateItems(cat, items).Ok? && LastGiven(items, i)
    ensures items[i].0 in ValidateItems(cat, items).value
    ensures Ok(ValidateItems(cat, items).value[items[i].0]) == Validate(cat, items[i].0, items[i].1)
  {
    ItemsNext(cat, items);
    if i < |items| - 1 { LastGivenStands(cat, items[..|items| - 1], i); }
  }

  /** Nothing given is an error too. */
  lemma NothingGiven(cat: Catalogue, items: seq<(string, Option<string>)>)
    ensures ValidateMany(cat, items) == Err(NoSettings) <==> |items| == 0
    ensures |items| > 0 ==> ValidateMany(cat, items) == ValidateItems(cat, items)
  {
    if items != [] && ValidateItems(cat, items).Err? {
      var i := FirstRefused(cat, items);
    }
  }

  predicate LastGiven(items: seq<(string, Option<string>)>, i: int) {
    0 <= i < |items| && forall j :: i < j < |items| ==> items[j].0 != items[i].0
  }

  predicate Digits(s: string, most: nat) {
    1 <= |s| <= most && forall c <- s :: '0' <= c <= '9'
  }

  /** A number is up to nineteen digits, with a minus sign in front or without. */
  lemma IntAcceptedIff(s: string)
    ensures Matches(IntKind, s) <==> exists digits :: Digits(digits, 19) && (s == digits || s == "-" + digits)
  {
    if Matches(IntKind, s) {
      var digits := if s[0] == '-' then s[1..] else s;
      forall c <- digits ensures '0' <= c <= '9' {
        assert IsDigit(c);
      }
      assert Digits(digits, 19) && (s == digits || s == "-" + digits);
    }
    if digits :| Digits(digits, 19) && (s == digits || s == "-" + digits) {
      assert s == "-" + digits ==> s[1..] == digits;
      assert digits[0] in digits;
    }
  }

  function Power10(k: nat): nat {
    if k == 0 then 1 else 10 * Power10(k - 1)
  }

  lemma {:induction false} DecimalLength(n: nat, k: nat)
    requires k >= 1
    ensures |Decimal(n)| <= k <==> n < Power10(k)
  {
    if n >= 10 && k > 1 {
      DecimalLength(n / 10, k - 1);
    } else if n < 10 {
      PowerGrows(k);
    }
  }

  lemma {:induction false} PowerGrows(k: nat)
    requires k >= 1
    ensures Power10(k) >= 10
  {
    if k > 1 { PowerGrows(k - 1); }
  }

  lemma NineteenZeros()
    ensures Power10(19) == 10_000_000_000_000_000_000
  {
    assert Power10(5) == 100_000;
    assert Power10(10) == 10_000_000_000;
    assert Power10(15) == 1_000_000_000_000_000;
  }

  /** Every integer below ten to the nineteenth is accepted as the panel prints it, of
      either sign, and none beyond. */
  lemma NumberAcceptedIff(n: nat)
    ensures Matches(IntKind, Decimal(n)) <==> n < 10_000_000_000_000_000_000
    ensures Matches(IntKind, "-" + Decimal(n)) <==> n < 10_000_000_000_000_000_000
  {
    var s := Decimal(n);
    DecimalLength(n, 19);
    NineteenZeros();
    assert s[0] in s;
    assert ("-" + s)[1..] == s;
  }

  /** A list of numbers is one to eight of them with single spaces between. */
  lemma IntsAcceptedIff(values: seq<string>)
    requires values != [] && forall v <- values :: ' ' !in v
    ensures Matches(IntsKind, Join(values, " ")) <==> |values| <= 8 && forall v <- values :: Matches(IntKind, v)
  {
    SplitJoin(values, ' ');
  }

  /** A name is up to 32 letters, digits, underscores, dots and dashes, the last two not
      in front. */
  lemma NameAcceptedIff(s: string)
    ensures Matches(TextKind, s) <==>
            && 1 <= |s| <= 32 && s[0] != '.' && s[0] != '-'
            && forall c <- s :: 'a' <= c <= 'z' || 'A' <= c <= 'Z' || '0' <= c <= '9' || c in {'_', '.', '-'}
  {
    if s != "" { assert s[0] in s; }
  }

  /** No accepted value holds a comment sign or a line break: nothing but the
      setting itself can reach the file. */
  lemma ValuePlain(kind: Kind, s: string, c: char)
    requires Matches(kind, s) && (c == '#' || c == '\n')
    ensures c !in s
  {
    match kind
    case IntKind =>
      DigitsPlain(s, c);
    case IntsKind =>
      var parts := Split(s, ' ');
      forall p <- parts ensures c !in p {
        DigitsPlain(p, c);
      }
      JoinSplit(s, ' ');
      JoinAvoids(parts, " ", c);
    case TextKind =>
  }

  // ------------------------------------------------------------------ printing

  /** Every line ended by a line break. */
  function Unlines(lines: seq<string>): string {
    if lines == [] then "" else lines[0] + "\n" + Unlines(lines[1..])
  }

  /** `"".join(pieces)`. */
  function Concat(pieces: seq<string>): string {
    if pieces == [] then "" else Concat(pieces[..|pieces| - 1]) + pieces[|pieces| - 1]
  }

  predicate HoldsTunable(cat: Catalogue, section: string) {
    exists t <- cat.tunables :: t.section == section
  }

  /** The keys of one section that have a value, in catalogue order. */
  function KeysIn(ts: seq<Tunable>, section: string, values: map<string, string>): (keys: seq<string>)
    ensures forall k <- keys :: k in values
  {
    if ts == [] then []
    else
      var init, t := KeysIn(ts[..|ts| - 1], section, values), ts[|ts| - 1];
      if t.section == section && t.key in values then init + [t.key] else init
  }

  function SettingLine(key: string, value: string): string {
    key + " = " + value
  }

  function SettingLines(keys: seq<string>, values: map<string, string>): seq<string>
    requires forall k <- keys :: k in values
  {
    if keys == [] then []
    else
      var init, k := keys[..|keys| - 1], keys[|keys| - 1];
      SettingLines(init, values) + [SettingLine(k, values[k])]
  }

  /** A blank line, the title as a comment and the settings; nothing at all for
      a section without settings. */
  function Block(cat: Catalogue, section: (string, string), values: map<string, string>): seq<string> {
    var keys := KeysIn(cat.tunables, section.0, values);
    if keys == [] then [] else ["", "# " + section.1] + SettingLines(keys, values)
  }

  /** The lines the file should have. */
  function FileLines(cat: Catalogue, n: nat, values: map<string, string>): seq<string>
    requires n <= |cat.sections|
  {
    if n == 0 then cat.header else FileLines(cat, n - 1, values) + Block(cat, cat.sections[n - 1], values)
  }

  function FileText(cat: Catalogue, values: map<string, string>): string {
    Unlines(FileLines(cat, |cat.sections|, values))
  }

  lemma {:induction false} UnlinesConcat(a: seq<string>, b: seq<string>)
    ensures Unlines(a + b) == Unlines(a) + Unlines(b)
  {
    if a == [] {
      assert a + b == b;
    } else {
      assert (a + b)[1..] == a[1..] + b;
      UnlinesConcat(a[1..], b);
    }
  }

  lemma ConcatSnoc(pieces: seq<string>, piece: string)
    ensures Concat(pieces + [piece]) == Concat(pieces) + piece
  {
    assert (pieces + [piece])[..|pieces|] == pieces;
  }

  lemma UnlinesSnoc(lines: seq<string>, line: string)
    ensures Unlines(lines + [line]) == Unlines(lines) + line + "\n"
  {
    UnlinesConcat(lines, [line]);
    assert [line][1..] == [];
  }

  /** A section no tunable belongs to contributes nothing. */
  lemma {:induction false} NoKeys(ts: seq<Tunable>, section: string, values: map<string, string>)
    requires forall t <- ts :: t.section != section
    ensures KeysIn(ts, section, values) == []
  {
    if ts != [] { NoKeys(ts[..|ts| - 1], section, values); }
  }

  /** `section_titles`: the sections that hold a tunable. */
  method SectionTitles(cat: Catalogue) returns (titles: seq<(string, string)>)
    ensures titles == TitlesOf(cat, |cat.sections|)
  {
    titles := [];
    for i := 0 to |cat.sections|
      invariant titles == TitlesOf(cat, i)
    {
      if exists t <- cat.tunables :: t.section == cat.sections[i].0 {
        titles := titles + [cat.sections[i]];
      }
    }
  }

  function TitlesOf(cat: Catalogue, n: nat): (titles: seq<(string, string)>)
    requires n <= |cat.sections|
  {
    if n == 0 then []
    else if HoldsTunable(cat, cat.sections[n - 1].0) then TitlesOf(cat, n - 1) + [cat.sections[n - 1]]
    else TitlesOf(cat, n - 1)
  }

  /** They are the sections some tunable belongs to, in the order of SECTIONS. */
  lemma {:induction false} TitlesAre(cat: Catalogue, n: nat, section: (string, string))
    requires n <= |cat.sections|
    ensures section in TitlesOf(cat, n) <==>
            section in cat.sections[..n] && exists t <- cat.tunables :: t.section == section.0
  {
    if n > 0 {
      TitlesAre(cat, n - 1, section);
      TakeNext(cat.sections, n - 1);
    }
  }

  /** A section with settings is a blank line, its title as a comment, and a line for each
      tunable of it that has a value. */
  lemma BlockShape(cat: Catalogue, section: (string, string), values: map<string, string>)
    ensures var block, keys := Block(cat, section, values), KeysIn(cat.tunables, section.0, values);
            && (block == [] <==> !exists t <- cat.tunables :: t.section == section.0 && t.key in values)
            && (block != [] ==> |block| == 2 + |keys| && block[0] == "" && block[1] == "# " + section.1)
            && (forall i :: 0 <= i < |keys| ==> block[2 + i] == keys[i] + " = " + values[keys[i]])
  {
    var keys := KeysIn(cat.tunables, section.0, values);
    SettingLinesGood(keys, values);
    if t :| t in cat.tunables && t.section == section.0 && t.key in values {
      KeysInIs(cat.tunables, section.0, values, t.key);
    }
    if keys != [] {
      KeysInIs(cat.tunables, section.0, values, keys[0]);
      assert keys[0] in keys;
    }
  }

  /** The lines contributed by a list of titled sections. */
  function Blocks(cat: Catalogue, titles: seq<(string, string)>, values: map<string, string>): seq<string> {
    if titles == [] then cat.header
    else Blocks(cat, titles[..|titles| - 1], values) + Block(cat, titles[|titles| - 1], values)
  }

  lemma BlocksSnoc(cat: Catalogue, titles: seq<(string, string)>, title: (string, string), values: map<string, string>)
    ensures Blocks(cat, titles + [title], values) == Blocks(cat, titles, values) + Block(cat, title, values)
  {
    assert (titles + [title])[..|titles|] == titles;
  }

  lemma NoBlock(cat: Catalogue, section: (string, string), values: map<string, string>, before: seq<string>)
    requires !HoldsTunable(cat, section.0)
    ensures before + Block(cat, section, values) == before
  {
    NoKeys(cat.tunables, section.0, values);
  }

  lemma TitlesStep(cat: Catalogue, titles: seq<(string, string)>, section: (string, string),
                   values: map<string, string>)
    ensures Blocks(cat, if HoldsTunable(cat, section.0) then titles + [section] else titles, values)
         == Blocks(cat, titles, values) + Block(cat, section, values)
  {
    if HoldsTunable(cat, section.0) {
      BlocksSnoc(cat, titles, section, values);
    } else {
      NoBlock(cat, section, values, Blocks(cat, titles, values));
    }
  }

  lemma {:induction false} TitlesSuffice(cat: Catalogue, n: nat, values: map<string, string>)
    requires n <= |cat.sections|
    ensures Blocks(cat, TitlesOf(cat, n), values) == FileLines(cat, n, values)
  {
    if n > 0 {
      TitlesSuffice(cat, n - 1, values);
      TitlesStep(cat, TitlesOf(cat, n - 1), cat.sections[n - 1], values);
    }
  }

  /** The keys of one section that have a value, by a scan of the catalogue. */
  method SectionKeys(cat: Catalogue, section: string, values: map<string, string>) returns (keys: seq<string>)
    ensures keys == KeysIn(cat.tunables, section, values)
  {
    keys := [];
    for i := 0 to |cat.tunables|
      invariant keys == KeysIn(cat.tunables[..i], section, values)
    {
      var t := cat.tunables[i];
      assert cat.tunables[..i + 1][..i] == cat.tunables[..i];
      if t.section == section && t.key in values {
        keys := keys + [t.key];
      }
    }
    assert cat.tunables[..|cat.tunables|] == cat.tunables;
  }

  /** The setting lines of some keys, appended to the list under construction. */
  method AppendSettings(keys: seq<string>, values: map<string, string>, before: seq<string>)
    returns (pieces: seq<string>)
    requires forall k <- keys :: k in values
    ensures Concat(pieces) == Concat(before) + Unlines(SettingLines(keys, values))
  {
    pieces := before;
    for i := 0 to |keys|
      invariant Concat(pieces) == Concat(before) + Unlines(SettingLines(keys[..i], values))
    {
      var key := keys[i];
      ConcatSnoc(pieces, key + " = " + values[key] + "\n");
      UnlinesSnoc(SettingLines(keys[..i], values), SettingLine(key, values[key]));
      assert keys[..i + 1][..i] == keys[..i];
      pieces := pieces + [key + " = " + values[key] + "\n"];
    }
    assert keys[..|keys|] == keys;
  }

  /** The pieces of one section, appended to the list under construction. */
  method AppendSection(cat: Catalogue, section: (string, string), values: map<string, string>, before: seq<string>)
    returns (pieces: seq<string>)
    ensures Concat(pieces) == Concat(before) + Unlines(Block(cat, section, values))
  {
    pieces := before;
    var keys := SectionKeys(cat, section.0, values);
    if keys == [] { return; }
    pieces := pieces + ["\n# " + section.1 + "\n"];
    ConcatSnoc(before, "\n# " + section.1 + "\n");
    TitleLines(section.1);
    UnlinesConcat(["", "# " + section.1], SettingLines(keys, values));
    pieces := AppendSettings(keys, values, pieces);
  }

  lemma TitleLines(title: string)
    ensures Unlines(["", "# " + title]) == "\n# " + title + "\n"
  {
    UnlinesSnoc([""], "# " + title);
    UnlinesSnoc([], "");
  }

  /** `render`. */
  method Render(cat: Catalogue, values: map<string, string>) returns (text: string)
    ensures text == FileText(cat, values)
  {
    var pieces := [Unlines(cat.header)];
    ConcatSnoc([], Unlines(cat.header));
    var titles := SectionTitles(cat);
    for i := 0 to |titles|
      invariant Concat(pieces) == Unlines(Blocks(cat, titles[..i], values))
    {
      assert titles[..i + 1] == titles[..i] + [titles[i]];
      BlocksSnoc(cat, titles[..i], titles[i], values);
      UnlinesConcat(Blocks(cat, titles[..i], values), Block(cat, titles[i], values));
      pieces := AppendSection(cat, titles[i], values, pieces);
    }
    assert titles[..|titles|] == titles;
    TitlesSuffice(cat, |cat.sections|, values);
    text := Concat(pieces);
  }

  // ------------------------------------------------------------------- parsing

  /** What one line of the file sets, if anything. */
  function Setting(cat: Catalogue, line: string): Option<(string, string)> {
    var body := Strip(line[..FirstIndex(line, '#')]);
    var eq := FirstIndex(body, '=');
    if eq == |body| then None
    else
      var key := Strip(body[..eq]);
      if ByKey(cat.tunables, key).None? then None else Some((key, Normal(body[eq + 1..])))
  }

  function Apply(values: map<string, string>, setting: Option<(string, string)>): map<string, string> {
    if setting.None? then values else values[setting.value.0 := setting.value.1]
  }

  function Settings(cat: Catalogue, lines: seq<string>): map<string, string> {
    if lines == [] then map[]
    else Apply(Settings(cat, lines[..|lines| - 1]), Setting(cat, lines[|lines| - 1]))
  }

  lemma SettingsSnoc(cat: Catalogue, lines: seq<string>, line: string)
    ensures Settings(cat, lines + [line]) == Apply(Settings(cat, lines), Setting(cat, line))
  {
    assert (lines + [line])[..|lines|] == lines;
  }

  /** `managed_values` on the text of the file; a file that cannot be opened is
      None. */
  method ManagedValues(cat: Catalogue, file: Option<string>) returns (values: map<string, string>)
    ensures values == if file.None? then map[] else Settings(cat, Split(file.value, '\n'))
  {
    values := map[];
    if file.None? { return; }
    var lines := Split(file.value, '\n');
    for i := 0 to |lines|
      invariant values == Settings(cat, lines[..i])
    {
      SettingsSnoc(cat, lines[..i], lines[i]);
      assert lines[..i + 1] == lines[..i] + [lines[i]];
      values := ReadLine(cat, lines[i], values);
    }
    assert lines[..|lines|] == lines;
  }

  /** The body of the loop over the lines. */
  method ReadLine(cat: Catalogue, line: string, values: map<string, string>) returns (r: map<string, string>)
    ensures r == Apply(values, Setting(cat, line))
  {
    r := values;
    var body := Strip(line[..FirstIndex(line, '#')]);
    var eq := FirstIndex(body, '=');
    if eq == |body| { return; }
    var key := Strip(body[..eq]);
    if ByKey(cat.tunables, key).Some? {
      r := r[key := Normal(body[eq + 1..])];
    }
  }

  // ---------------------------------------------------------------- round trip

  lemma {:induction false} SplitUnlines(lines: seq<string>)
    requires forall l <- lines :: '\n' !in l
    ensures Split(Unlines(lines), '\n') == lines + [""]
  {
    if lines != [] {
      SplitUnlines(lines[1..]);
      SplitFirst(lines[0], '\n', Unlines(lines[1..]));
      assert [lines[0]] + (lines[1..] + [""]) == lines + [""];
    }
  }

  /** A comment or a blank line sets nothing. */
  lemma CommentSetsNothing(cat: Catalogue, line: string)
    requires line == "" || line[0] == '#'
    ensures Setting(cat, line).None?
  {
    assert line[..FirstIndex(line, '#')] == "";
  }

  lemma StripTrailing(key: string)
    requires IsWord(key)
    ensures Strip(key + " ") == key
  {
    var s := key + " ";
    assert key[0] in key && key[|key| - 1] in key;
    assert s[0] == key[0] && s[|s| - 1] == ' ' && s[..|s| - 1] == key;
    assert StripLeft(s) == s && StripRight(s) == StripRight(key);
  }

  lemma SettingLineShape(key: string, value: string)
    requires GoodKey(key) && value != "" && Trimmed(value)
    ensures Strip(SettingLine(key, value)) == SettingLine(key, value)
    ensures FirstIndex(SettingLine(key, value), '=') == |key| + 1
    ensures SettingLine(key, value)[..|key| + 1] == key + " "
    ensures SettingLine(key, value)[|key| + 2..] == " " + value
  {
    var line := SettingLine(key, value);
    assert !IsSpace(key[0]);
    assert line[0] == key[0] && line[|line| - 1] == value[|value| - 1];
    StripTrimmed(line);
    assert line == (key + " ") + ['='] + (" " + value);
    FirstIndexIs(key + " ", '=', " " + value);
  }

  lemma {:induction false} FirstIndexNone(s: string, c: char)
    requires c !in s
    ensures s[..FirstIndex(s, c)] == s
  {}

  lemma SettingLinePlain(cat: Catalogue, key: string, value: string)
    requires WellFormed(cat) && AcceptedValue(cat, key, value)
    ensures GoodKey(key) && '#' !in SettingLine(key, value) && '\n' !in SettingLine(key, value)
    ensures value != "" && Trimmed(value)
  {
    var t := ByKey(cat.tunables, key).value;
    assert GoodKey(t.key);
    ValuePlain(t.kind, value, '#');
    ValuePlain(t.kind, value, '\n');
    NormalIsTrimmed(Words(value));
  }

  /** A line the printer writes sets its key to its value. */
  lemma SettingLineSets(cat: Catalogue, key: string, value: string)
    requires WellFormed(cat) && AcceptedValue(cat, key, value)
    ensures Setting(cat, SettingLine(key, value)) == Some((key, value))
  {
    SettingLinePlain(cat, key, value);
    FirstIndexNone(SettingLine(key, value), '#');
    SettingLineShape(key, value);
    StripTrailing(key);
    NormalAfterSpace(value);
  }

  lemma NormalAfterSpace(value: string)
    ensures Normal(" " + value) == Normal(value)
  {
    assert (" " + value)[1..] == value;
    assert Words(" " + value) == Words(value);
  }

  /** The lines of a section: blank, comment, or a setting of the map. */
  ghost predicate GoodLine(cat: Catalogue, values: map<string, string>, line: string) {
    || line == ""
    || IsComment(line)
    || exists key :: key in values && line == SettingLine(key, values[key])
  }

  lemma {:induction false} SettingLinesGood(keys: seq<string>, values: map<string, string>)
    requires forall k <- keys :: k in values
    ensures |SettingLines(keys, values)| == |keys|
    ensures forall i :: 0 <= i < |keys| ==> SettingLines(keys, values)[i] == SettingLine(keys[i], values[keys[i]])
  {
    if keys != [] {
      SettingLinesGood(keys[..|keys| - 1], values);
    }
  }

  lemma BlockGood(cat: Catalogue, section: (string, string), values: map<string, string>)
    requires '\n' !in section.1
    ensures forall l <- Block(cat, section, values) :: GoodLine(cat, values, l)
  {
    var keys := KeysIn(cat.tunables, section.0, values);
    var settings := SettingLines(keys, values);
    SettingLinesGood(keys, values);
    forall l <- Block(cat, section, values) ensures GoodLine(cat, values, l) {
      if l in settings {
        var i :| 0 <= i < |keys| && settings[i] == l;
        assert keys[i] in values;
      } else if l != "" {
        TitleIsComment(section.1);
      }
    }
  }

  lemma TitleIsComment(title: string)
    requires '\n' !in title
    ensures IsComment("# " + title)
  {}

  /** Every line of the file is blank, a comment, or one accepted setting. */
  lemma {:induction false} FileLinesGood(cat: Catalogue, n: nat, values: map<string, string>)
    requires WellFormed(cat) && n <= |cat.sections|
    ensures forall l <- FileLines(cat, n, values) :: GoodLine(cat, values, l)
  {
    if n > 0 {
      FileLinesGood(cat, n - 1, values);
      BlockGood(cat, cat.sections[n - 1], values);
    }
  }

  /** Parsing good lines yields values of the map, for the keys that have a line. */
  lemma {:induction false} SettingsOfGood(cat: Catalogue, values: map<string, string>, lines: seq<string>)
    requires WellFormed(cat) && Accepted(cat, values)
    requires forall l <- lines :: GoodLine(cat, values, l)
    ensures forall k <- Settings(cat, lines) :: k in values && Settings(cat, lines)[k] == values[k]
    ensures forall k <- values :: k in Settings(cat, lines) <==> SettingLine(k, values[k]) in lines
  {
    if lines != [] {
      var init, last := lines[..|lines| - 1], lines[|lines| - 1];
      SettingsOfGood(cat, values, init);
      assert lines == init + [last];
      GoodLineSets(cat, values, last);
      forall k <- values ensures k in Settings(cat, lines) <==> SettingLine(k, values[k]) in lines {
        SettingLineSets(cat, k, values[k]);
      }
    }
  }

  lemma GoodLineSets(cat: Catalogue, values: map<string, string>, line: string)
    requires WellFormed(cat) && Accepted(cat, values) && GoodLine(cat, values, line)
    ensures var s := Setting(cat, line);
            s.Some? ==>
              s.value.0 in values && values[s.value.0] == s.value.1 && line == SettingLine(s.value.0, s.value.1)
  {
    if line == "" || line[0] == '#' {
      CommentSetsNothing(cat, line);
    } else {
      var key :| key in values && line == SettingLine(key, values[key]);
      SettingLineSets(cat, key, values[key]);
    }
  }

  lemma GoodLineWhole(cat: Catalogue, values: map<string, string>, line: string)
    requires WellFormed(cat) && Accepted(cat, values) && GoodLine(cat, values, line)
    ensures '\n' !in line
  {
    if line != "" && !IsComment(line) {
      var key :| key in values && line == SettingLine(key, values[key]);
      SettingLinePlain(cat, key, values[key]);
    }
  }

  /** The key belongs to a tunable of a section among the first n. */
  predicate Listed(cat: Catalogue, n: nat, key: string)
    requires n <= |cat.sections|
  {
    exists t <- cat.tunables :: t.key == key && SectionAmong(cat, n, t.section)
  }

  predicate SectionAmong(cat: Catalogue, n: nat, section: string)
    requires n <= |cat.sections|
  {
    exists i :: 0 <= i < n && cat.sections[i].0 == section
  }

  predicate InSection(cat: Catalogue, section: string, key: string) {
    exists t <- cat.tunables :: t.key == key && t.section == section
  }

  lemma {:induction false} KeysInIs(ts: seq<Tunable>, section: string, values: map<string, string>, key: string)
    ensures key in KeysIn(ts, section, values) <==>
            key in values && exists t <- ts :: t.key == key && t.section == section
  {
    if ts != [] {
      KeysInIs(ts[..|ts| - 1], section, values, key);
      assert ts == ts[..|ts| - 1] + [ts[|ts| - 1]];
    }
  }

  lemma BlockHas(cat: Catalogue, section: (string, string), values: map<string, string>, key: string)
    requires WellFormed(cat) && Accepted(cat, values) && key in values && '\n' !in section.1
    ensures SettingLine(key, values[key]) in Block(cat, section, values)
       <==> InSection(cat, section.0, key)
  {
    var keys := KeysIn(cat.tunables, section.0, values);
    var line := SettingLine(key, values[key]);
    KeysInIs(cat.tunables, section.0, values, key);
    SettingLinesGood(keys, values);
    SettingLineSets(cat, key, values[key]);
    CommentSetsNothing(cat, "");
    CommentSetsNothing(cat, "# " + section.1);
    if line in SettingLines(keys, values) {
      var i :| 0 <= i < |keys| && SettingLine(keys[i], values[keys[i]]) == line;
      SettingLineSets(cat, keys[i], values[keys[i]]);
    }
  }

  lemma HeaderHasNone(cat: Catalogue, key: string, value: string)
    requires WellFormed(cat) && AcceptedValue(cat, key, value)
    ensures SettingLine(key, value) !in cat.header
  {
    SettingLinePlain(cat, key, value);
    assert '#' !in SettingLine(key, value);
  }

  /** A line is in the file if it is in the block of one of the sections. */
  lemma {:induction false} FileHasBlock(cat: Catalogue, n: nat, values: map<string, string>, key: string, line: string)
    requires n <= |cat.sections| && line !in cat.header
    requires forall s <- cat.sections :: line in Block(cat, s, values) <==> InSection(cat, s.0, key)
    ensures line in FileLines(cat, n, values) <==> Listed(cat, n, key)
  {
    if n > 0 {
      FileHasBlock(cat, n - 1, values, key, line);
      ListedStep(cat, n, key);
      InConcat(FileLines(cat, n - 1, values), Block(cat, cat.sections[n - 1], values), line);
    }
  }

  lemma FileHas(cat: Catalogue, values: map<string, string>, key: string)
    requires WellFormed(cat) && Accepted(cat, values) && key in values
    ensures SettingLine(key, values[key]) in FileLines(cat, |cat.sections|, values) <==>
            Listed(cat, |cat.sections|, key)
  {
    var line := SettingLine(key, values[key]);
    HeaderHasNone(cat, key, values[key]);
    forall s <- cat.sections ensures line in Block(cat, s, values) <==> InSection(cat, s.0, key) {
      BlockHas(cat, s, values, key);
    }
    FileHasBlock(cat, |cat.sections|, values, key, line);
  }

  lemma InConcat(a: seq<string>, b: seq<string>, line: string)
    ensures line in a + b <==> line in a || line in b
  {}

  lemma ListedStep(cat: Catalogue, n: nat, key: string)
    requires 0 < n <= |cat.sections|
    ensures Listed(cat, n, key)
       <==> Listed(cat, n - 1, key) || InSection(cat, cat.sections[n - 1].0, key)
  {
    forall t <- cat.tunables
      ensures SectionAmong(cat, n, t.section) <==>
              SectionAmong(cat, n - 1, t.section) || t.section == cat.sections[n - 1].0
    {
    }
  }

  lemma FileSplits(cat: Catalogue, values: map<string, string>)
    requires WellFormed(cat) && Accepted(cat, values)
    ensures Split(FileText(cat, values), '\n') == FileLines(cat, |cat.sections|, values) + [""]
  {
    var lines := FileLines(cat, |cat.sections|, values);
    FileLinesGood(cat, |cat.sections|, values);
    forall l <- lines ensures '\n' !in l {
      GoodLineWhole(cat, values, l);
    }
    SplitUnlines(lines);
  }

  lemma LinesReadBack(cat: Catalogue, values: map<string, string>)
    requires WellFormed(cat) && Accepted(cat, values)
    ensures Settings(cat, FileLines(cat, |cat.sections|, values))
         == map k | k in values && Listed(cat, |cat.sections|, k) :: values[k]
  {
    var lines := FileLines(cat, |cat.sections|, values);
    FileLinesGood(cat, |cat.sections|, values);
    SettingsOfGood(cat, values, lines);
    forall k <- values ensures k in Settings(cat, lines) <==> Listed(cat, |cat.sections|, k) {
      FileHas(cat, values, k);
    }
  }

  /** The whole file reads back as the settings whose section has a title. */
  lemma FileReadsBack(cat: Catalogue, values: map<string, string>)
    requires WellFormed(cat) && Accepted(cat, values)
    ensures Settings(cat, Split(FileText(cat, values), '\n'))
         == map k | k in values && Listed(cat, |cat.sections|, k) :: values[k]
  {
    FileSplits(cat, values);
    SettingsSnoc(cat, FileLines(cat, |cat.sections|, values), "");
    CommentSetsNothing(cat, "");
    LinesReadBack(cat, values);
  }

  /** Parsing the rendered file gives the settings back. */
  predicate ReadsBack(cat: Catalogue, values: map<string, string>) {
    Settings(cat, Split(FileText(cat, values), '\n')) == values
  }

  /** Whatever validate_many accepts is read back from the rendered file as it
      was, exactly when the section of every key given has a title. */
  lemma SysctlRoundTrip(cat: Catalogue, items: seq<(string, Option<string>)>)
    requires WellFormed(cat) && ValidateMany(cat, items).Ok?
    ensures ReadsBack(cat, ValidateMany(cat, items).value)
       <==> forall k <- ValidateMany(cat, items).value :: Listed(cat, |cat.sections|, k)
  {
    var values := ValidateMany(cat, items).value;
    ValidatedIsAccepted(cat, items);
    FileReadsBack(cat, values);
    var back := Settings(cat, Split(FileText(cat, values), '\n'));
    if back == values {
      assert forall k <- values :: k in back;
    }
  }
}
