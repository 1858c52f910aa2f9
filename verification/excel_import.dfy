/** The spreadsheet importer (`components/ExcelImport.tsx`): cell
    normalisation, column-alias resolution from the first row, and the
    admission loop that builds the batch for one bulk insert. Reading the
    file into rows is done by the sheet reader and is not part of this model:
    the importer receives the rows. */
module SpreadsheetImport {
  import opened Strings
  import opened Records

  /** A cell as the sheet reader hands it over: null (also a missing column),
      text, or a boolean. A numeric cell is the text `String(v)` gives for it,
      which is never empty. */
  datatype Cell = Blank | Text(s: string) | Flag(b: bool)

  datatype Entry = Entry(key: string, cell: Cell)

  /** One row: its keys in `Object.keys` order, each with its cell. */
  type Row = seq<Entry>

  /** `Object.keys(row)`. */
  function Keys(row: Row): (ks: seq<string>)
    ensures |ks| == |row|
    ensures forall i | 0 <= i < |row| :: ks[i] == row[i].key
  {
    seq(|row|, i requires 0 <= i < |row| => row[i].key)
  }

  /** `row[key]`; a key the row does not have reads as `undefined`, here `Blank`. */
  function CellAt(row: Row, key: string): Cell {
    if row == [] then Blank
    else if row[0].key == key then row[0].cell
    else CellAt(row[1..], key)
  }

  /** A key the row does not have reads as blank. */
  lemma {:induction false} CellAtAbsent(row: Row, key: string)
    requires key !in Keys(row)
    ensures CellAt(row, key) == Blank
  {
    if row != [] {
      assert Keys(row)[0] == row[0].key;
      assert Keys(row[1..]) == Keys(row)[1..];
      CellAtAbsent(row[1..], key);
    }
  }

  /** `String(v)` for a cell that is not blank. */
  function CellText(c: Cell): string {
    match c
    case Blank => "null"
    case Text(s) => s
    case Flag(b) => if b then "true" else "false"
  }

  /** `getStr(row, key)`. */
  function GetStr(row: Row, key: string): Option<string> {
    var v := CellAt(row, key);
    if v == Blank || v == Text("") then None
    else TrimOrNull(CellText(v))
  }

  /** `getStr` is null for a blank cell, for `""` and for text that is all
      whitespace; otherwise it is the trimmed text, never empty. */
  lemma GetStrSpec(row: Row, key: string)
    ensures var r := GetStr(row, key);
      (r.None? <==> CellAt(row, key) == Blank || AllSpace(CellText(CellAt(row, key)))) &&
      (r.Some? ==> r.value != [] && IsTrimmed(r.value) && r.value == Trim(CellText(CellAt(row, key))))
  {
    TrimOrNullSpec(CellText(CellAt(row, key)));
  }

  const TrueTokens: set<string> := {"true", "yes", "1"}
  const FalseTokens: set<string> := {"false", "no", "0"}

  /** `getBool(row, key)`: a boolean cell passes through; text is lower-cased
      (not trimmed) and read as one of the true or false tokens; anything
      else, blank and `""` included, is null. */
  function GetBool(row: Row, key: string): (r: Option<bool>)
    ensures CellAt(row, key).Blank? ==> r == None
    ensures CellAt(row, key).Flag? ==> r == Some(CellAt(row, key).b)
    ensures CellAt(row, key).Text? ==>
      (r == Some(true) <==> ToLower(CellAt(row, key).s) in TrueTokens) &&
      (r == Some(false) <==> ToLower(CellAt(row, key).s) in FalseTokens)
  {
    match CellAt(row, key)
    case Blank => None
    case Flag(b) => Some(b)
    case Text(s) =>
      if s == "" then None
      else
        var l := ToLower(s);
        if l == "true" || l == "yes" || l == "1" then Some(true)
        else if l == "false" || l == "no" || l == "0" then Some(false)
        else None
  }

  /** Tokens are recognised only exactly: surrounding spaces make a cell unknown. */
  lemma GetBoolDoesNotTrim()
    ensures GetBool([Entry("zakaat", Text("YES"))], "zakaat") == Some(true)
    ensures GetBool([Entry("zakaat", Text(" yes"))], "zakaat") == None
  {
    assert ToLower("YES") == "yes";
    assert ToLower(" yes") == " yes";
  }

  const CnicAliases: seq<string> := ["cnic", "CNIC", "Cnic", "id"]
  const NameAliases: seq<string> := ["name", "Name", "nama"]
  const PhoneAliases: seq<string> := ["phone", "Phone", "mobile", "contact"]
  const DesignationAliases: seq<string> := ["designation", "Designation", "role", "title"]
  const ZakaatAliases: seq<string> := ["zakaat_eligible", "zakaat", "Zakaat", "zakat", "eligible"]

  /** `k` equals some alias lower-cased. */
  predicate InAliases(k: string, aliases: seq<string>)
    decreases |aliases|
  {
    aliases != [] && (ToLower(aliases[0]) == k || InAliases(k, aliases[1..]))
  }

  /** `InAliases` holds as soon as any one alias matches. */
  lemma {:induction false} InAliasesAt(k: string, aliases: seq<string>, a: nat)
    requires a < |aliases| && ToLower(aliases[a]) == k
    ensures InAliases(k, aliases)
    decreases a
  {
    if a > 0 {
      assert aliases[1..][a - 1] == aliases[a];
      InAliasesAt(k, aliases[1..], a - 1);
    }
  }

  /** The key, trimmed and lower-cased, equals some alias lower-cased. */
  predicate MatchesAlias(key: string, aliases: seq<string>) {
    InAliases(ToLower(Trim(key)), aliases)
  }

  /** The position of the first key that matches an alias; `|keys|` when
      none does. */
  function FirstMatchIndex(keys: seq<string>, aliases: seq<string>): (j: nat)
    ensures j <= |keys|
    ensures j < |keys| ==> MatchesAlias(keys[j], aliases)
    ensures forall i | 0 <= i < j :: !MatchesAlias(keys[i], aliases)
  {
    if keys == [] then 0
    else if MatchesAlias(keys[0], aliases) then 0
    else
      var j := 1 + FirstMatchIndex(keys[1..], aliases);
      assert forall i | 1 <= i < j :: keys[i] == keys[1..][i - 1];
      j
  }

  /** What `findColumnKey` returns for a row with these keys: the first key,
      in key order, that matches an alias, as the original key; null when
      none does. */
  function FirstKeyMatching(keys: seq<string>, aliases: seq<string>): Option<string> {
    var j := FirstMatchIndex(keys, aliases);
    if j < |keys| then Some(keys[j]) else None
  }

  /** The found key is one of the keys and matches an alias; no key matches
      when nothing is found. */
  lemma FirstKeyMatchingFound(keys: seq<string>, aliases: seq<string>)
    ensures var r := FirstKeyMatching(keys, aliases);
      (r.Some? ==> r.value in keys && MatchesAlias(r.value, aliases)) &&
      (r.None? <==> forall i | 0 <= i < |keys| :: !MatchesAlias(keys[i], aliases))
  {
  }

  /** The first matching position is pinned down by its two properties. */
  lemma FirstMatchIndexIs(keys: seq<string>, aliases: seq<string>, i: nat)
    requires i <= |keys|
    requires i < |keys| ==> MatchesAlias(keys[i], aliases)
    requires forall m | 0 <= m < i :: !MatchesAlias(keys[m], aliases)
    ensures FirstMatchIndex(keys, aliases) == i
  {
    var j := FirstMatchIndex(keys, aliases);
    assert !(j < i);
    assert !(i < j);
  }

  /** The inner loop of `findColumnKey`: does some alias, lower-cased,
      equal `k`? */
  method SomeAliasIs(k: string, aliases: seq<string>) returns (found: bool)
    ensures found == InAliases(k, aliases)
  {
    for j := 0 to |aliases|
      invariant InAliases(k, aliases[j..]) == InAliases(k, aliases)
    {
      assert aliases[j..][0] == aliases[j] && aliases[j..][1..] == aliases[j + 1..];
      if ToLower(aliases[j]) == k {
        return true;
      }
    }
    return false;
  }

  /** One more key that matches no alias extends the scanned prefix. */
  lemma NoMatchExtends(row: Row, aliases: seq<string>, i: nat)
    requires i < |row|
    requires forall m | 0 <= m < i :: !MatchesAlias(row[m].key, aliases)
    requires !MatchesAlias(row[i].key, aliases)
    ensures forall m | 0 <= m < i + 1 :: !MatchesAlias(row[m].key, aliases)
  {
  }

  /** `findColumnKey(row, aliases)`: scans the row's keys in order and, for
      each, the aliases, returning the first key that matches. */
  method FindColumnKey(row: Row, aliases: seq<string>) returns (r: Option<string>)
    ensures r == FirstKeyMatching(Keys(row), aliases)
  {
    for i := 0 to |row|
      invariant forall m | 0 <= m < i :: !MatchesAlias(row[m].key, aliases)
    {
      var key := row[i].key;
      var found := SomeAliasIs(ToLower(Trim(key)), aliases);
      if found {
        FirstMatchIndexIs(Keys(row), aliases, i);
        return Some(key);
      }
      NoMatchExtends(row, aliases, i);
    }
    FirstMatchIndexIs(Keys(row), aliases, |row|);
    return None;
  }

  /** The keys each field is read from. */
  datatype ColumnKeys = ColumnKeys(cnic: string, name: string, phone: string, designation: string, zakaat: string)

  /** `findColumnKey(first, aliases) ?? canonical`. */
  function KeyOrCanonical(first: Row, aliases: seq<string>, canonical: string): string {
    match FirstKeyMatching(Keys(first), aliases)
    case Some(k) => k
    case None => canonical
  }

  /** A resolved key is a key of the first row that matches the field's
      aliases; the canonical name is used only when no key matches. */
  lemma KeyOrCanonicalSpec(first: Row, aliases: seq<string>, canonical: string)
    ensures var k := KeyOrCanonical(first, aliases, canonical);
      ((forall i | 0 <= i < |first| :: !MatchesAlias(first[i].key, aliases)) ==> k == canonical) &&
      ((exists i | 0 <= i < |first| :: MatchesAlias(first[i].key, aliases)) ==>
         k in Keys(first) && MatchesAlias(k, aliases))
  {
    FirstKeyMatchingFound(Keys(first), aliases);
  }

  /** The column keys resolved from the first row alone. */
  function ColumnKeysFor(first: Row): ColumnKeys {
    ColumnKeys(
      KeyOrCanonical(first, CnicAliases, "cnic"),
      KeyOrCanonical(first, NameAliases, "name"),
      KeyOrCanonical(first, PhoneAliases, "phone"),
      KeyOrCanonical(first, DesignationAliases, "designation"),
      KeyOrCanonical(first, ZakaatAliases, "zakaat_eligible"))
  }

  /** The resolution step of the import: one `findColumnKey` call per field
      on the first row, falling back to the canonical name. */
  method ResolveColumns(first: Row) returns (keys: ColumnKeys)
    ensures keys == ColumnKeysFor(first)
  {
    var cnic := FindColumnKey(first, CnicAliases);
    var name := FindColumnKey(first, NameAliases);
    var phone := FindColumnKey(first, PhoneAliases);
    var designation := FindColumnKey(first, DesignationAliases);
    var zakaat := FindColumnKey(first, ZakaatAliases);
    keys := ColumnKeys(
      if cnic.Some? then cnic.value else "cnic",
      if name.Some? then name.value else "name",
      if phone.Some? then phone.value else "phone",
      if designation.Some? then designation.value else "designation",
      if zakaat.Some? then zakaat.value else "zakaat_eligible");
  }

  /** A field whose canonical name is itself one of its aliases, and which no
      key of the row matches, reads as blank under that canonical name. */
  lemma FallbackReadsBlank(row: Row, aliases: seq<string>, canonical: string, a: nat)
    requires a < |aliases| && aliases[a] == canonical && IsTrimmed(canonical)
    requires FirstKeyMatching(Keys(row), aliases).None?
    ensures CellAt(row, canonical) == Blank
  {
    InAliasesAt(ToLower(Trim(canonical)), aliases, a);
    assert MatchesAlias(canonical, aliases);
    FirstKeyMatchingFound(Keys(row), aliases);
    CellAtAbsent(row, canonical);
  }

  /** The state of the admission loop: `seenInFile`, `toInsert`, `skipped`. */
  datatype Admission = Admission(seen: set<string>, batch: seq<NewBeneficiary>, skipped: nat)

  const Start := Admission({}, [], 0)

  /** The record queued for a row whose CNIC is `cnic`. */
  function RowRecord(row: Row, keys: ColumnKeys, cnic: string, location: Location): NewBeneficiary {
    NewBeneficiary(
      GetStr(row, keys.name), cnic, GetStr(row, keys.phone), GetStr(row, keys.designation),
      location, GetBool(row, keys.zakaat), Pending)
  }

  /** One iteration of the admission loop. */
  function AdmitRow(st: Admission, row: Row, keys: ColumnKeys, existing: set<string>, location: Location): Admission {
    match GetStr(row, keys.cnic)
    case None => st
    case Some(c) =>
      if c in existing || c in st.seen then st.(skipped := st.skipped + 1)
      else Admission(st.seen + {c}, st.batch + [RowRecord(row, keys, c, location)], st.skipped)
  }

  /** The admission loop run over `rows` from state `st`. */
  function AdmitAll(st: Admission, rows: seq<Row>, keys: ColumnKeys, existing: set<string>, location: Location): Admission
    decreases |rows|
  {
    if rows == [] then st
    else AdmitAll(AdmitRow(st, rows[0], keys, existing, location), rows[1..], keys, existing, location)
  }

  /** Running the loop from row `i` is one step on row `i` and then the rest. */
  lemma AdmitAllStep(st: Admission, rows: seq<Row>, i: nat, keys: ColumnKeys, existing: set<string>, location: Location)
    requires i < |rows|
    ensures AdmitAll(st, rows[i..], keys, existing, location)
         == AdmitAll(AdmitRow(st, rows[i], keys, existing, location), rows[i + 1..], keys, existing, location)
  {
    assert rows[i..][0] == rows[i] && rows[i..][1..] == rows[i + 1..];
  }

  /** The loop of `handleFile`: drops rows with a blank CNIC, counts and skips
      CNICs already known or already seen in the file, and queues the rest. */
  method AdmitRows(rows: seq<Row>, keys: ColumnKeys, existing: set<string>, location: Location)
    returns (toInsert: seq<NewBeneficiary>, skipped: nat)
    ensures toInsert == AdmitAll(Start, rows, keys, existing, location).batch
    ensures skipped == AdmitAll(Start, rows, keys, existing, location).skipped
  {
    var seenInFile: set<string> := {};
    toInsert := [];
    skipped := 0;
    for i := 0 to |rows|
      invariant AdmitAll(Admission(seenInFile, toInsert, skipped), rows[i..], keys, existing, location)
             == AdmitAll(Start, rows, keys, existing, location)
    {
      var row := rows[i];
      ghost var before := Admission(seenInFile, toInsert, skipped);
      AdmitAllStep(before, rows, i, keys, existing, location);
      var cnic := GetStr(row, keys.cnic);
      if cnic.None? {
        assert before == AdmitRow(before, row, keys, existing, location);
        continue;
      }
      var c := cnic.value;
      if c in existing || c in seenInFile {
        skipped := skipped + 1;
        assert Admission(seenInFile, toInsert, skipped) == AdmitRow(before, row, keys, existing, location);
        continue;
      }
      seenInFile := seenInFile + {c};
      toInsert := toInsert + [RowRecord(row, keys, c, location)];
      assert Admission(seenInFile, toInsert, skipped) == AdmitRow(before, row, keys, existing, location);
    }
  }

  /** The CNICs of a batch, in order. */
  function BatchCnics(batch: seq<NewBeneficiary>): (cs: seq<string>)
    ensures |cs| == |batch|
    ensures forall j | 0 <= j < |batch| :: cs[j] == batch[j].cnic
  {
    seq(|batch|, j requires 0 <= j < |batch| => batch[j].cnic)
  }

  /** What the importer promises of a batch: every record has a non-empty,
      trimmed CNIC that is not already known, is `pending` and belongs to the
      active tab, and no two records share a CNIC. */
  predicate Admissible(batch: seq<NewBeneficiary>, existing: set<string>, location: Location) {
    (forall j | 0 <= j < |batch| ::
       batch[j].cnic != [] && IsTrimmed(batch[j].cnic) && batch[j].cnic !in existing &&
       batch[j].status == Pending && batch[j].location == location) &&
    (forall j, k | 0 <= j < k < |batch| :: batch[j].cnic != batch[k].cnic)
  }

  /** The loop invariant of the admission: `seen` holds exactly the queued CNICs. */
  ghost predicate Consistent(st: Admission, existing: set<string>, location: Location) {
    Admissible(st.batch, existing, location) &&
    forall c :: c in st.seen <==> c in BatchCnics(st.batch)
  }

  /** Queueing a fresh, admissible record keeps the state consistent. */
  lemma QueueKeepsConsistent(st: Admission, rec: NewBeneficiary, existing: set<string>, location: Location)
    requires Consistent(st, existing, location)
    requires rec.cnic != [] && IsTrimmed(rec.cnic) && rec.cnic !in existing && rec.cnic !in st.seen
    requires rec.status == Pending && rec.location == location
    ensures Consistent(Admission(st.seen + {rec.cnic}, st.batch + [rec], st.skipped), existing, location)
  {
    assert BatchCnics(st.batch + [rec]) == BatchCnics(st.batch) + [rec.cnic];
  }

  lemma {:induction false} AdmitAllConsistent(st: Admission, rows: seq<Row>, keys: ColumnKeys, existing: set<string>, location: Location)
    requires Consistent(st, existing, location)
    ensures Consistent(AdmitAll(st, rows, keys, existing, location), existing, location)
    decreases |rows|
  {
    if rows != [] {
      var st' := AdmitRow(st, rows[0], keys, existing, location);
      var c := GetStr(rows[0], keys.cnic);
      GetStrSpec(rows[0], keys.cnic);
      if c.Some? && c.value !in existing && c.value !in st.seen {
        QueueKeepsConsistent(st, RowRecord(rows[0], keys, c.value, location), existing, location);
      }
      AdmitAllConsistent(st', rows[1..], keys, existing, location);
    }
  }

  /** Every batch the import builds is admissible. */
  lemma ImportBatchAdmissible(rows: seq<Row>, keys: ColumnKeys, existing: set<string>, location: Location)
    ensures Admissible(AdmitAll(Start, rows, keys, existing, location).batch, existing, location)
  {
    AdmitAllConsistent(Start, rows, keys, existing, location);
  }

  /** The number of rows whose CNIC cell is blank. */
  function BlankRows(rows: seq<Row>, key: string): nat
    decreases |rows|
  {
    if rows == [] then 0
    else (if GetStr(rows[0], key).None? then 1 else 0) + BlankRows(rows[1..], key)
  }

  lemma {:induction false} AdmitAllCounts(st: Admission, rows: seq<Row>, keys: ColumnKeys, existing: set<string>, location: Location)
    ensures var r := AdmitAll(st, rows, keys, existing, location);
      |r.batch| + r.skipped + BlankRows(rows, keys.cnic) == |st.batch| + st.skipped + |rows|
    decreases |rows|
  {
    if rows != [] {
      AdmitAllCounts(AdmitRow(st, rows[0], keys, existing, location), rows[1..], keys, existing, location);
    }
  }

  /** Every row is queued, skipped as a duplicate, or dropped as blank, and
      blank rows are not counted as skipped. */
  lemma ImportCounts(rows: seq<Row>, keys: ColumnKeys, existing: set<string>, location: Location)
    ensures var r := AdmitAll(Start, rows, keys, existing, location);
      |r.batch| + r.skipped + BlankRows(rows, keys.cnic) == |rows|
  {
    AdmitAllCounts(Start, rows, keys, existing, location);
  }

  /** The batch as a walk over the file that threads only the excluded
      CNICs: a row is queued when its CNIC is non-blank and excluded neither
      by the known set nor by an earlier queued row. `FirstOccurrencesAt`
      restates it in row positions. */
  function FirstOccurrences(rows: seq<Row>, keys: ColumnKeys, excluded: set<string>, location: Location): seq<NewBeneficiary>
    decreases |rows|
  {
    if rows == [] then []
    else
      match GetStr(rows[0], keys.cnic)
      case None => FirstOccurrences(rows[1..], keys, excluded, location)
      case Some(c) =>
        if c in excluded then FirstOccurrences(rows[1..], keys, excluded, location)
        else [RowRecord(rows[0], keys, c, location)] + FirstOccurrences(rows[1..], keys, excluded + {c}, location)
  }

  lemma {:induction false} AdmitAllIsFirstOccurrences(st: Admission, rows: seq<Row>, keys: ColumnKeys, existing: set<string>, location: Location)
    ensures AdmitAll(st, rows, keys, existing, location).batch
         == st.batch + FirstOccurrences(rows, keys, existing + st.seen, location)
    decreases |rows|
  {
    if rows != [] {
      var st' := AdmitRow(st, rows[0], keys, existing, location);
      AdmitAllIsFirstOccurrences(st', rows[1..], keys, existing, location);
      var c := GetStr(rows[0], keys.cnic);
      if c.Some? && c.value !in existing && c.value !in st.seen {
        assert existing + st'.seen == existing + st.seen + {c.value};
      }
    }
  }

  /** The first row of each new CNIC wins and the batch keeps file order. */
  lemma ImportKeepsFirstOccurrences(rows: seq<Row>, keys: ColumnKeys, existing: set<string>, location: Location)
    ensures AdmitAll(Start, rows, keys, existing, location).batch
         == FirstOccurrences(rows, keys, existing, location)
  {
    AdmitAllIsFirstOccurrences(Start, rows, keys, existing, location);
    assert existing + Start.seen == existing;
  }

  /** Row `i` holds the first occurrence in the file of a CNIC that is
      non-blank and not excluded: no earlier row has the same CNIC. */
  predicate FirstNew(rows: seq<Row>, key: string, excluded: set<string>, i: nat)
    requires i < |rows|
  {
    var c := GetStr(rows[i], key);
    c.Some? && c.value !in excluded &&
    forall j | 0 <= j < i :: GetStr(rows[j], key) != c
  }

  /** `rec` is the record of row `i`, a first occurrence of a new CNIC. */
  predicate RecordOfRow(rec: NewBeneficiary, rows: seq<Row>, keys: ColumnKeys,
                        excluded: set<string>, location: Location, i: nat)
  {
    i < |rows| && FirstNew(rows, keys.cnic, excluded, i) &&
    rec == RowRecord(rows[i], keys, GetStr(rows[i], keys.cnic).value, location)
  }

  /** `batch[p]` is the record of row `idx[p]`, for every position `p`. */
  predicate RecordsOfRows(batch: seq<NewBeneficiary>, rows: seq<Row>, keys: ColumnKeys,
                          excluded: set<string>, location: Location, idx: seq<nat>)
  {
    |idx| == |batch| &&
    forall p | 0 <= p < |idx| :: RecordOfRow(batch[p], rows, keys, excluded, location, idx[p])
  }

  predicate Increasing(idx: seq<nat>) {
    forall p, q | 0 <= p < q < |idx| :: idx[p] < idx[q]
  }

  /** Every row holding the first occurrence of a new CNIC is listed. */
  predicate CoversFirstNew(rows: seq<Row>, key: string, excluded: set<string>, idx: seq<nat>) {
    forall i | 0 <= i < |rows| && FirstNew(rows, key, excluded, i) :: i in idx
  }

  /** `batch` is, position by position, the record of row `idx[p]`, where
      `idx` runs upwards through exactly the rows that hold the first
      occurrence of a new CNIC. */
  predicate QueuesFirstNewRows(batch: seq<NewBeneficiary>, rows: seq<Row>, keys: ColumnKeys,
                               excluded: set<string>, location: Location, idx: seq<nat>)
  {
    RecordsOfRows(batch, rows, keys, excluded, location, idx) && Increasing(idx) &&
    CoversFirstNew(rows, keys.cnic, excluded, idx)
  }

  /** What is excluded after looking at a row whose CNIC reads `c`. */
  function ExcludedAfter(excluded: set<string>, c: Option<string>): set<string> {
    if c.Some? && c.value !in excluded then excluded + {c.value} else excluded
  }

  /** Dropping the first row: a later row is a first occurrence in the whole
      file exactly when it is one in the rest of the file, with the first
      row's CNIC excluded. */
  lemma FirstNewShift(rows: seq<Row>, key: string, excluded: set<string>, i: nat)
    requires 0 < i < |rows|
    ensures FirstNew(rows, key, excluded, i)
        <==> FirstNew(rows[1..], key, ExcludedAfter(excluded, GetStr(rows[0], key)), i - 1)
  {
    assert rows[1..][i - 1] == rows[i];
    assert forall j | 0 <= j < i - 1 :: rows[1..][j] == rows[j + 1];
    var c := GetStr(rows[i], key);
    if forall j | 0 <= j < i - 1 :: GetStr(rows[1..][j], key) != c {
      assert forall j | 1 <= j < i :: GetStr(rows[j], key) != c by {
        forall j | 1 <= j < i ensures GetStr(rows[j], key) != c {
          assert rows[1..][j - 1] == rows[j];
        }
      }
    }
  }

  /** Row positions in the rest of the file, as positions in the whole file. */
  function Shift(idx: seq<nat>): (r: seq<nat>)
    ensures |r| == |idx| && forall p | 0 <= p < |idx| :: r[p] == idx[p] + 1
  {
    seq(|idx|, p requires 0 <= p < |idx| => idx[p] + 1)
  }

  lemma RecordsOfRowsShift(b: seq<NewBeneficiary>, rows: seq<Row>, keys: ColumnKeys,
                           excluded: set<string>, location: Location, idx: seq<nat>)
    requires rows != []
    requires RecordsOfRows(b, rows[1..], keys, ExcludedAfter(excluded, GetStr(rows[0], keys.cnic)), location, idx)
    ensures RecordsOfRows(b, rows, keys, excluded, location, Shift(idx))
  {
    var s := Shift(idx);
    forall p | 0 <= p < |idx|
      ensures RecordOfRow(b[p], rows, keys, excluded, location, s[p])
    {
      assert rows[s[p]] == rows[1..][idx[p]];
      FirstNewShift(rows, keys.cnic, excluded, s[p]);
    }
  }

  lemma CoversFirstNewShift(rows: seq<Row>, key: string, excluded: set<string>, idx: seq<nat>)
    requires rows != []
    requires CoversFirstNew(rows[1..], key, ExcludedAfter(excluded, GetStr(rows[0], key)), idx)
    ensures forall i | 0 < i < |rows| && FirstNew(rows, key, excluded, i) :: i in Shift(idx)
  {
    var s := Shift(idx);
    forall i | 0 < i < |rows| && FirstNew(rows, key, excluded, i) ensures i in s {
      FirstNewShift(rows, key, excluded, i);
      var p :| 0 <= p < |idx| && idx[p] == i - 1;
      assert s[p] == i;
    }
  }

  lemma RecordsOfRowsCons(r0: NewBeneficiary, rest: seq<NewBeneficiary>, rows: seq<Row>, keys: ColumnKeys,
                          excluded: set<string>, location: Location, s: seq<nat>)
    requires RecordOfRow(r0, rows, keys, excluded, location, 0)
    requires RecordsOfRows(rest, rows, keys, excluded, location, s)
    ensures RecordsOfRows([r0] + rest, rows, keys, excluded, location, [0] + s)
  {
    var b, idx := [r0] + rest, [0] + s;
    forall p | 0 <= p < |idx| ensures RecordOfRow(b[p], rows, keys, excluded, location, idx[p]) {
      if p > 0 {
        assert b[p] == rest[p - 1] && idx[p] == s[p - 1];
      }
    }
  }

  lemma IncreasingCons(s: seq<nat>)
    requires Increasing(s) && forall p | 0 <= p < |s| :: s[p] > 0
    ensures Increasing([0] + s)
  {
    var idx := [0] + s;
    forall p | 1 <= p < |idx| ensures idx[p] == s[p - 1] { }
  }

  lemma CoversFirstNewCons(rows: seq<Row>, key: string, excluded: set<string>, s: seq<nat>)
    requires forall i | 0 < i < |rows| && FirstNew(rows, key, excluded, i) :: i in s
    ensures CoversFirstNew(rows, key, excluded, [0] + s)
  {
    forall i | 0 <= i < |rows| && FirstNew(rows, key, excluded, i) ensures i in [0] + s {
      if i > 0 {
        assert i in s;
      }
    }
  }

  /** A first row that holds a new CNIC is queued ahead of the rest. */
  lemma QueuesFirstRow(rows: seq<Row>, keys: ColumnKeys, excluded: set<string>, location: Location,
                       rest: seq<NewBeneficiary>, idx: seq<nat>)
    requires rows != [] && GetStr(rows[0], keys.cnic).Some? && GetStr(rows[0], keys.cnic).value !in excluded
    requires QueuesFirstNewRows(rest, rows[1..], keys, ExcludedAfter(excluded, GetStr(rows[0], keys.cnic)), location, idx)
    ensures QueuesFirstNewRows([RowRecord(rows[0], keys, GetStr(rows[0], keys.cnic).value, location)] + rest,
                               rows, keys, excluded, location, [0] + Shift(idx))
  {
    var s := Shift(idx);
    RecordsOfRowsShift(rest, rows, keys, excluded, location, idx);
    CoversFirstNewShift(rows, keys.cnic, excluded, idx);
    assert FirstNew(rows, keys.cnic, excluded, 0);
    RecordsOfRowsCons(RowRecord(rows[0], keys, GetStr(rows[0], keys.cnic).value, location), rest, rows, keys, excluded, location, s);
    IncreasingCons(s);
    CoversFirstNewCons(rows, keys.cnic, excluded, s);
  }

  /** A first row that is blank or holds an excluded CNIC is passed over. */
  lemma PassesFirstRow(rows: seq<Row>, keys: ColumnKeys, excluded: set<string>, location: Location,
                       rest: seq<NewBeneficiary>, idx: seq<nat>)
    requires rows != [] && !(GetStr(rows[0], keys.cnic).Some? && GetStr(rows[0], keys.cnic).value !in excluded)
    requires QueuesFirstNewRows(rest, rows[1..], keys, ExcludedAfter(excluded, GetStr(rows[0], keys.cnic)), location, idx)
    ensures QueuesFirstNewRows(rest, rows, keys, excluded, location, Shift(idx))
  {
    RecordsOfRowsShift(rest, rows, keys, excluded, location, idx);
    CoversFirstNewShift(rows, keys.cnic, excluded, idx);
    assert !FirstNew(rows, keys.cnic, excluded, 0);
  }

  /** The reference walk queues exactly the first occurrences of new CNICs,
      in row order. */
  lemma {:induction false} FirstOccurrencesAt(rows: seq<Row>, keys: ColumnKeys, excluded: set<string>, location: Location)
    returns (idx: seq<nat>)
    ensures QueuesFirstNewRows(FirstOccurrences(rows, keys, excluded, location), rows, keys, excluded, location, idx)
    decreases |rows|
  {
    if rows == [] {
      return [];
    }
    var c := GetStr(rows[0], keys.cnic);
    var excluded' := ExcludedAfter(excluded, c);
    var rest := FirstOccurrences(rows[1..], keys, excluded', location);
    var idx' := FirstOccurrencesAt(rows[1..], keys, excluded', location);
    if c.Some? && c.value !in excluded {
      assert FirstOccurrences(rows, keys, excluded, location) == [RowRecord(rows[0], keys, c.value, location)] + rest;
      QueuesFirstRow(rows, keys, excluded, location, rest, idx');
      idx := [0] + Shift(idx');
    } else {
      assert FirstOccurrences(rows, keys, excluded, location) == rest;
      PassesFirstRow(rows, keys, excluded, location, rest, idx');
      idx := Shift(idx');
    }
  }

  /** Row by row: the import queues the record of row `i` exactly when row
      `i` holds the first occurrence of a non-blank CNIC that is not already
      known, and queues them in row order. */
  lemma ImportQueuesFirstNewRows(rows: seq<Row>, keys: ColumnKeys, existing: set<string>, location: Location)
    returns (idx: seq<nat>)
    ensures QueuesFirstNewRows(AdmitAll(Start, rows, keys, existing, location).batch, rows, keys, existing, location, idx)
  {
    ImportKeepsFirstOccurrences(rows, keys, existing, location);
    idx := FirstOccurrencesAt(rows, keys, existing, location);
  }

  /** Rows whose CNIC cell is blank leave the admission state as it was. */
  lemma {:induction false} BlankRowsIgnored(st: Admission, rows: seq<Row>, keys: ColumnKeys, existing: set<string>, location: Location)
    requires forall j | 0 <= j < |rows| :: GetStr(rows[j], keys.cnic).None?
    ensures AdmitAll(st, rows, keys, existing, location) == st
    decreases |rows|
  {
    if rows != [] {
      assert forall j | 0 <= j < |rows| - 1 :: rows[1..][j] == rows[j + 1];
      BlankRowsIgnored(st, rows[1..], keys, existing, location);
    }
  }

  /** The canonical CNIC key is itself the first CNIC alias, already trimmed. */
  lemma CnicIsOwnAlias()
    ensures CnicAliases[0] == "cnic" && IsTrimmed("cnic")
  {
  }

  /** A sheet whose header has no CNIC column (no key matches a CNIC alias)
      falls back to the key `"cnic"`, which no row has: nothing is queued and
      nothing is counted as skipped. The sheet reader gives every row the
      header's keys. */
  lemma MissingCnicColumnImportsNothing(rows: seq<Row>, existing: set<string>, location: Location)
    requires rows != [] && FirstKeyMatching(Keys(rows[0]), CnicAliases).None?
    requires forall j | 0 <= j < |rows| :: Keys(rows[j]) == Keys(rows[0])
    ensures var r := AdmitAll(Start, rows, ColumnKeysFor(rows[0]), existing, location);
      r.batch == [] && r.skipped == 0
  {
    var keys := ColumnKeysFor(rows[0]);
    assert keys.cnic == "cnic" by {
      assert KeyOrCanonical(rows[0], CnicAliases, "cnic") == "cnic";
    }
    CnicIsOwnAlias();
    forall j | 0 <= j < |rows| ensures CellAt(rows[j], "cnic") == Blank {
      FallbackReadsBlank(rows[j], CnicAliases, "cnic", 0);
    }
    BlankRowsIgnored(Start, rows, keys, existing, location);
  }

  /** A row with a new CNIC is queued. */
  lemma AdmitRowQueues(st: Admission, row: Row, keys: ColumnKeys, existing: set<string>, location: Location)
    requires GetStr(row, keys.cnic).Some?
    requires GetStr(row, keys.cnic).value !in existing && GetStr(row, keys.cnic).value !in st.seen
    ensures var c := GetStr(row, keys.cnic).value;
      AdmitRow(st, row, keys, existing, location)
      == Admission(st.seen + {c}, st.batch + [RowRecord(row, keys, c, location)], st.skipped)
  {
  }

  /** A row whose CNIC is known or already seen is counted as skipped. */
  lemma AdmitRowSkips(st: Admission, row: Row, keys: ColumnKeys, existing: set<string>, location: Location)
    requires GetStr(row, keys.cnic).Some?
    requires GetStr(row, keys.cnic).value in existing || GetStr(row, keys.cnic).value in st.seen
    ensures AdmitRow(st, row, keys, existing, location) == st.(skipped := st.skipped + 1)
  {
  }

  /** Rows with CNICs A, A, B and nothing known, where the two A rows may
      differ in their other cells: the first A row and B are queued, in that
      order, and the second A row is counted as skipped. */
  lemma DuplicateInFileSkipped(a1: Row, a2: Row, b: Row, keys: ColumnKeys, location: Location)
    requires GetStr(a1, keys.cnic).Some? && GetStr(a2, keys.cnic) == GetStr(a1, keys.cnic)
    requires GetStr(b, keys.cnic).Some? && GetStr(b, keys.cnic) != GetStr(a1, keys.cnic)
    ensures var r := AdmitAll(Start, [a1, a2, b], keys, {}, location);
      r.batch == [RowRecord(a1, keys, GetStr(a1, keys.cnic).value, location), RowRecord(b, keys, GetStr(b, keys.cnic).value, location)] &&
      r.skipped == 1
  {
    var x, y := GetStr(a1, keys.cnic).value, GetStr(b, keys.cnic).value;
    var ra, rb := RowRecord(a1, keys, x, location), RowRecord(b, keys, y, location);
    var s1 := Admission({x}, [ra], 0);
    assert AdmitRow(Start, a1, keys, {}, location) == s1 by {
      AdmitRowQueues(Start, a1, keys, {}, location);
      assert Start.seen + {x} == {x} && Start.batch + [ra] == [ra];
    }
    var s2 := Admission({x}, [ra], 1);
    assert AdmitRow(s1, a2, keys, {}, location) == s2 by {
      AdmitRowSkips(s1, a2, keys, {}, location);
    }
    var s3 := Admission({x, y}, [ra, rb], 1);
    assert AdmitRow(s2, b, keys, {}, location) == s3 by {
      AdmitRowQueues(s2, b, keys, {}, location);
      assert s2.seen + {y} == {x, y} && s2.batch + [rb] == [ra, rb];
    }
    assert [a1, a2, b][1..] == [a2, b] && [a2, b][1..] == [b] && [b][1..] == [];
    assert AdmitAll(Start, [a1, a2, b], keys, {}, location) == AdmitAll(s1, [a2, b], keys, {}, location);
    assert AdmitAll(s1, [a2, b], keys, {}, location) == AdmitAll(s2, [b], keys, {}, location);
    assert AdmitAll(s2, [b], keys, {}, location) == AdmitAll(s3, [], keys, {}, location);
  }

  /** With A already known, rows with CNICs A, C queue only C and count A
      as skipped. */
  lemma KnownCnicSkipped(a: Row, c: Row, keys: ColumnKeys, location: Location)
    requires GetStr(a, keys.cnic).Some? && GetStr(c, keys.cnic).Some?
    requires GetStr(a, keys.cnic) != GetStr(c, keys.cnic)
    ensures var r := AdmitAll(Start, [a, c], keys, {GetStr(a, keys.cnic).value}, location);
      r.batch == [RowRecord(c, keys, GetStr(c, keys.cnic).value, location)] && r.skipped == 1
  {
    var known := {GetStr(a, keys.cnic).value};
    var y := GetStr(c, keys.cnic).value;
    var s1 := AdmitRow(Start, a, keys, known, location);
    assert s1 == Admission({}, [], 1);
    var s2 := AdmitRow(s1, c, keys, known, location);
    assert s2 == Admission({y}, [RowRecord(c, keys, y, location)], 1);
    assert [a, c][1..] == [c] && [c][1..] == [];
    assert AdmitAll(s1, [c], keys, known, location) == s2;
  }

  /** What one import of a sheet ends with. `NoRows` is the early return for
      an empty sheet; otherwise the batch, whether the bulk insert was called,
      and the `inserted` and `skipped` counters. */
  datatype ImportOutcome =
    | NoRows
    | Imported(batch: seq<NewBeneficiary>, insertCalled: bool, inserted: nat, skipped: nat)

  /** `handleFile` after the sheet has been read: resolve the columns from the
      first row, admit the rows, and bulk-insert a non-empty batch; `reply` is
      the store's answer to that insert. `inserted` is the batch size only
      when the insert reports no error. */
  method ImportSheet(rows: seq<Row>, existing: set<string>, location: Location, reply: StoreReply)
    returns (outcome: ImportOutcome)
    ensures rows == [] <==> outcome == NoRows
    ensures rows != [] ==>
      var a := AdmitAll(Start, rows, ColumnKeysFor(rows[0]), existing, location);
      outcome.batch == a.batch && outcome.skipped == a.skipped &&
      outcome.insertCalled == (a.batch != []) &&
      outcome.inserted == (if a.batch != [] && reply == Accepted then |a.batch| else 0)
  {
    if |rows| == 0 {
      return NoRows;
    }
    var keys := ResolveColumns(rows[0]);
    var toInsert, skipped := AdmitRows(rows, keys, existing, location);
    var inserted := 0;
    var called := false;
    if |toInsert| > 0 {
      called := true;
      if reply == Accepted {
        inserted := |toInsert|;
      }
    }
    outcome := Imported(toInsert, called, inserted, skipped);
  }
}
