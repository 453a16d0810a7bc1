/** The bulk-import correction loop of the admin settings page: the rows the
    backend rejected, the operator's per-cell edits, the fuzzy mapping from
    spreadsheet headers to the five guest fields, the retry request built from
    the edits, and the reconciliation of the failure list with the retry
    reply. A failed row's `row` number is its identity across retries; table
    positions shift as rows are resolved. */
module BulkImport {
  import opened Js

  // ----- data model -----

  /** One cell of a submitted spreadsheet row. */
  datatype Cell = Cell(header: string, value: string)

  /** A row's `data` object: its cells in key order, at most one per header. */
  type RowData = seq<Cell>

  /** An entry of the failure list: the 1-based source row number, the
      submitted cells, the localized messages and the offending fields. */
  datatype FailedRow = FailedRow(row: int, data: RowData, errors: seq<string>, errorFields: seq<string>)

  /** An entry of a retry reply's `errors`: the row that still fails and why. */
  datatype RowFailure = RowFailure(row: int, errors: seq<string>, errorFields: seq<string>)

  /** The record sent to the retry endpoint for one edited row. */
  datatype RetryRow = RetryRow(row: int, qrId: string, email: string, firstName: string, lastName: string, guestType: string)

  /** One row's edits: header to the text typed into that cell. */
  type Edits = map<string, string>

  /** `editedRows`: table position to that row's edits. */
  type EditMap = map<nat, Edits>

  /** The five guest fields a header can stand for. */
  datatype Role = Qr | Email | FirstName | LastName | GuestType

  // ----- row data -----

  /** `Object.keys(data)`. */
  function Headers(d: RowData): (hs: seq<string>)
    ensures |hs| == |d| && forall i :: 0 <= i < |d| ==> hs[i] == d[i].header
  {
    seq(|d|, i requires 0 <= i < |d| => d[i].header)
  }

  /** `data[h]`: the value under header `h`, if the row has that key. */
  function Lookup(d: RowData, h: string): (v: Option<string>)
    ensures v.None? <==> forall i :: 0 <= i < |d| ==> d[i].header != h
    ensures v.Some? ==> exists i :: 0 <= i < |d| && d[i] == Cell(h, v.value)
  {
    if d == [] then None
    else if d[0].header == h then Some(d[0].value)
    else
      var v := Lookup(d[1..], h);
      assert forall i :: 1 <= i < |d| ==> d[i] == d[1..][i - 1];
      v
  }

  /** `[...new Set(hs)]`: the first occurrence of every header, in order. */
  function Dedup(hs: seq<string>): (r: seq<string>)
    ensures forall x :: x in r <==> x in hs
    ensures forall i, j :: 0 <= i < j < |r| ==> r[i] != r[j]
    ensures |r| <= |hs|
  {
    if hs == [] then []
    else
      var d := Dedup(hs[..|hs| - 1]);
      var x := hs[|hs| - 1];
      assert forall y :: y in hs <==> y in hs[..|hs| - 1] || y == x;
      if x in d then d else d + [x]
  }

  predicate Distinct(hs: seq<string>) {
    forall i, j :: 0 <= i < j < |hs| ==> hs[i] != hs[j]
  }

  /** Deduplicating headers that are already distinct changes nothing. */
  lemma {:induction false} DedupOfDistinct(hs: seq<string>)
    requires Distinct(hs)
    ensures Dedup(hs) == hs
  {
    if hs != [] {
      DedupOfDistinct(hs[..|hs| - 1]);
      assert hs[|hs| - 1] !in hs[..|hs| - 1];
      assert hs[..|hs| - 1] + [hs[|hs| - 1]] == hs;
    }
  }

  // ----- header inference -----

  /** The substrings that identify each field, in English, Turkish and French. */
  function Keywords(r: Role): seq<string> {
    match r
    case Qr => ["qr"]
    case Email => ["email", "eposta", "courriel"]
    case FirstName => ["first", "isim", "prenom"]
    case LastName => ["last", "soy", "nom"]
    case GuestType => ["guest", "misafir", "type"]
  }

  /** The column name used when no header matches the field. */
  function DefaultHeader(r: Role): string {
    match r
    case Qr => "qrId"
    case Email => "E-mail"
    case FirstName => "First Name"
    case LastName => "Last Name"
    case GuestType => "Guest Type"
  }

  /** `h.toLowerCase().replace(/[-_\s]/g, '')`. */
  function Normalize(h: string): (n: string)
    ensures |n| <= |h|
  {
    StripSeparators(ToLowerAscii(h))
  }

  /** Some keyword of `ks` occurs in `s`. */
  predicate IncludesAny(s: string, ks: seq<string>) {
    if ks == [] then false else Includes(s, ks[0]) || IncludesAny(s, ks[1..])
  }

  lemma {:induction false} IncludesAnyNonEmpty(s: string, ks: seq<string>)
    requires forall k :: k in ks ==> k != []
    requires IncludesAny(s, ks)
    ensures s != []
  {
    assert ks[0] in ks;
    if Includes(s, ks[0]) {
      var i :| 0 <= i && OccursAt(s, ks[0], i);
    } else {
      assert forall k :: k in ks[1..] ==> k in ks;
      IncludesAnyNonEmpty(s, ks[1..]);
    }
  }

  /** The normalized header contains one of the keywords `ks`. */
  predicate MatchesAny(h: string, ks: seq<string>) {
    IncludesAny(Normalize(h), ks)
  }

  /** The header test of the retry code for one field. */
  predicate MatchesRole(h: string, r: Role) {
    MatchesAny(h, Keywords(r))
  }

  /** A header that matches a field is never empty. */
  lemma {:induction false} MatchingHeaderNonEmpty(h: string, r: Role)
    requires MatchesRole(h, r)
    ensures h != ""
  {
    IncludesAnyNonEmpty(Normalize(h), Keywords(r));
  }

  /** `headers.findIndex(h => MatchesAny(h, ks))`, or `None` for `-1`. */
  function FirstMatch(headers: seq<string>, ks: seq<string>): Option<nat> {
    if headers == [] then None
    else if MatchesAny(headers[0], ks) then Some(0)
    else
      var i := FirstMatch(headers[1..], ks);
      if i.Some? then Some(i.value + 1) else None
  }

  lemma {:induction false} FirstMatchSpec(headers: seq<string>, ks: seq<string>)
    ensures var i := FirstMatch(headers, ks);
      (i.Some? ==> i.value < |headers| && MatchesAny(headers[i.value], ks) &&
                   forall j :: 0 <= j < i.value ==> !MatchesAny(headers[j], ks)) &&
      (i.None? <==> forall j :: 0 <= j < |headers| ==> !MatchesAny(headers[j], ks))
  {
    if headers != [] && !MatchesAny(headers[0], ks) {
      FirstMatchSpec(headers[1..], ks);
      assert forall j :: 1 <= j < |headers| ==> headers[j] == headers[1..][j - 1];
    }
  }

  /** `headers.find(h => MatchesRole(h, r)) || DefaultHeader(r)`: the column the
      retry reads field `r` from. */
  function HeaderFor(headers: seq<string>, r: Role): string {
    var i := FirstMatch(headers, Keywords(r));
    if i.Some? then
      FirstMatchSpec(headers, Keywords(r));
      Or(Some(headers[i.value]), DefaultHeader(r))
    else Or(None, DefaultHeader(r))
  }

  /** The header-inference rule: the chosen column is the first header that
      matches the field, or the fixed default when none does. */
  lemma {:induction false} HeaderForIsFirstMatching(headers: seq<string>, r: Role)
    ensures (exists i :: 0 <= i < |headers| && MatchesRole(headers[i], r)) ==>
      exists i :: 0 <= i < |headers| && HeaderFor(headers, r) == headers[i] && MatchesRole(headers[i], r) &&
        forall j :: 0 <= j < i ==> !MatchesRole(headers[j], r)
    ensures (forall i :: 0 <= i < |headers| ==> !MatchesRole(headers[i], r)) ==> HeaderFor(headers, r) == DefaultHeader(r)
  {
    FirstMatchSpec(headers, Keywords(r));
    var m := FirstMatch(headers, Keywords(r));
    if m.Some? {
      MatchingHeaderNonEmpty(headers[m.value], r);
      assert HeaderFor(headers, r) == headers[m.value];
    }
  }

  /** A header that lower-cases to a word of plain letters normalizes to it. */
  lemma NormalizeToWord(h: string, w: string)
    requires |h| == |w| && forall i :: 0 <= i < |h| ==> LowerChar(h[i]) == w[i]
    requires forall i :: 0 <= i < |w| ==> 'a' <= w[i] <= 'z'
    ensures Normalize(h) == w
  {
    assert ToLowerAscii(h) == w;
    StripSeparatorsOfLetters(w);
  }

  /** Removing the dash from two lower-case words joined by `-`. */
  lemma StripDashed(a: string, b: string)
    requires forall i :: 0 <= i < |a| ==> 'a' <= a[i] <= 'z'
    requires forall i :: 0 <= i < |b| ==> 'a' <= b[i] <= 'z'
    ensures StripSeparators(a + "-" + b) == a + b
  {
    StripSeparatorsAppend(a + "-", b);
    StripSeparatorsAppend(a, "-");
    StripSeparatorsOfLetters(a);
    StripSeparatorsOfLetters(b);
    var dash := "-";
    assert StripSeparators(dash) == [] by {
      assert IsSeparator(dash[0]) && dash[1..] == [];
    }
    assert StripSeparators(a + dash) == a;
  }

  lemma LowerEposta()
    ensures ToLowerAscii("E-posta") == "e-posta"
  {
  }

  lemma JoinEposta()
    ensures "e" + "posta" == "eposta"
  {
  }

  /** `E-posta` normalizes to `eposta`. */
  lemma NormalizeEposta(h: string)
    requires h == "E-posta"
    ensures Normalize(h) == "eposta"
  {
    assert ToLowerAscii(h) == "e" + "-" + "posta" by { LowerEposta(); }
    assert StripSeparators("e" + "-" + "posta") == "e" + "posta" by { StripDashed("e", "posta"); }
    assert "e" + "posta" == "eposta" by { JoinEposta(); }
  }

  /** A string without `f`, `i` or `r` contains no first-name keyword. */
  lemma NoFirstNameKeyword(s: string)
    requires forall i :: 0 <= i < |s| ==> s[i] != 'f' && s[i] != 'i' && s[i] != 'r'
    ensures !IncludesAny(s, Keywords(FirstName))
  {
    var ks := Keywords(FirstName);
    assert ks[0] == "first" && ks[1..][0] == "isim" && ks[1..][1..][0] == "prenom" && ks[1..][1..][1..] == [];
    MissingCharNotIncluded(s, "first", 0);
    MissingCharNotIncluded(s, "isim", 0);
    MissingCharNotIncluded(s, "prenom", 1);
    assert !IncludesAny(s, ks[1..][1..]);
    assert !IncludesAny(s, ks[1..]);
  }

  lemma EpostaMatchesEmail(h: string)
    requires h == "E-posta"
    ensures MatchesRole(h, Email)
  {
    NormalizeEposta(h);
    assert OccursAt("eposta", "eposta", 0);
  }

  /** A header whose normalized form lacks `f`, `i` and `r` is never taken for
      the first-name column. */
  lemma NotFirstNameHeader(h: string)
    requires forall i :: 0 <= i < |Normalize(h)| ==> Normalize(h)[i] !in {'f', 'i', 'r'}
    ensures !MatchesRole(h, FirstName)
  {
    NoFirstNameKeyword(Normalize(h));
  }

  lemma EpostaNotFirstName(h: string)
    requires h == "E-posta"
    ensures !MatchesRole(h, FirstName)
  {
    NormalizeEposta(h);
    NotFirstNameHeader(h);
  }

  lemma AdMatchesNoFirstName(h: string)
    requires h == "Ad"
    ensures !MatchesRole(h, FirstName)
  {
    NormalizeToWord(h, "ad");
    NotFirstNameHeader(h);
  }

  /** Turkish `E-posta` names the e-mail column; `Ad` matches no keyword, so the
      first name falls back to `First Name`. */
  lemma TurkishHeaders()
    ensures HeaderFor(["E-posta", "Ad"], Email) == "E-posta"
    ensures HeaderFor(["E-posta", "Ad"], FirstName) == "First Name"
  {
    var headers := ["E-posta", "Ad"];
    EpostaMatchesEmail(headers[0]);
    EpostaNotFirstName(headers[0]);
    AdMatchesNoFirstName(headers[1]);
    assert FirstMatch(headers, Keywords(FirstName)) == None by {
      assert headers[1..] == ["Ad"];
      assert ["Ad"][1..] == [];
    }
  }

  lemma NormalizePrenom()
    ensures Normalize("Prenom") == "prenom"
  {
    NormalizeToWord("Prenom", "prenom");
  }

  lemma PrenomMatchesFirstName()
    ensures MatchesRole("Prenom", FirstName)
  {
    NormalizePrenom();
    assert OccursAt("prenom", "prenom", 0);
  }

  lemma PrenomMatchesLastName()
    ensures MatchesRole("Prenom", LastName)
  {
    NormalizePrenom();
    assert OccursAt("prenom", "nom", 3);
    var ks := Keywords(LastName);
    assert ks[1..][1..][0] == "nom";
    assert IncludesAny("prenom", ks[1..][1..]);
  }

  /** French `Prenom` contains `nom`, so when it comes first it is taken as the
      last-name column as well as the first-name column. */
  lemma FrenchPrenomAlsoLastName()
    ensures HeaderFor(["Prenom", "Nom"], FirstName) == "Prenom"
    ensures HeaderFor(["Prenom", "Nom"], LastName) == "Prenom"
  {
    PrenomMatchesFirstName();
    PrenomMatchesLastName();
  }

  // ----- merging edits into a retry record -----

  /** `(edits[h] !== undefined ? edits[h] : data[h] || '').toString().trim()`. */
  function Merge(edits: Edits, data: RowData, h: string): (v: string)
    ensures h in edits ==> v == Trim(edits[h])
    ensures h !in edits && Lookup(data, h).Some? ==> v == Trim(Lookup(data, h).value)
    ensures h !in edits && Lookup(data, h).None? ==> v == ""
  {
    Trim(if h in edits then edits[h] else Or(Lookup(data, h), ""))
  }

  /** The merged value of field `r` of a row. */
  function MergedField(edits: Edits, data: RowData, headers: seq<string>, r: Role): string {
    Merge(edits, data, HeaderFor(headers, r))
  }

  function FieldOf(rr: RetryRow, r: Role): string {
    match r
    case Qr => rr.qrId
    case Email => rr.email
    case FirstName => rr.firstName
    case LastName => rr.lastName
    case GuestType => rr.guestType
  }

  /** The retry record for one edited row: the original row number and, for
      each field, the layered merge of edit, original value and `''`. */
  function RetryRowFor(fr: FailedRow, edits: Edits, headers: seq<string>): (rr: RetryRow)
  {
    RetryRow(fr.row,
      MergedField(edits, fr.data, headers, Qr),
      MergedField(edits, fr.data, headers, Email),
      MergedField(edits, fr.data, headers, FirstName),
      MergedField(edits, fr.data, headers, LastName),
      MergedField(edits, fr.data, headers, GuestType))
  }

  /** A retry record carries the row number of the row it was built from, and
      each of its fields is that row's merged value for the field. */
  lemma RetryRowForFields(fr: FailedRow, edits: Edits, headers: seq<string>)
    ensures RetryRowFor(fr, edits, headers).row == fr.row
    ensures forall r: Role :: FieldOf(RetryRowFor(fr, edits, headers), r) == MergedField(edits, fr.data, headers, r)
  {
    var rr := RetryRowFor(fr, edits, headers);
    forall r: Role ensures FieldOf(rr, r) == MergedField(edits, fr.data, headers, r) {
      match r
      case Qr =>
      case Email =>
      case FirstName =>
      case LastName =>
      case GuestType =>
    }
  }

  /** `editedRows[i] || {}`. */
  function EditsAt(edits: EditMap, i: nat): Edits {
    if i in edits then edits[i] else map[]
  }

  /** `Object.keys(editedRows).map(parseInt)` for keys below `n`: integer keys
      are enumerated in ascending order. */
  function EditedIndices(edits: EditMap, n: nat): (ix: seq<nat>)
    ensures forall j, k :: 0 <= j < k < |ix| ==> ix[j] < ix[k]
    ensures forall i :: i in ix <==> i < n && i in edits
    ensures forall j :: 0 <= j < |ix| ==> ix[j] < n && ix[j] in edits
  {
    if n == 0 then []
    else
      var p := EditedIndices(edits, n - 1);
      assert forall j :: 0 <= j < |p| ==> p[j] < n - 1 by {
        forall j | 0 <= j < |p| ensures p[j] < n - 1 { assert p[j] in p; }
      }
      p + (if n - 1 in edits then [n - 1] else [])
  }

  /** The positions listed in `s`. */
  function Elems(s: seq<nat>): (e: set<nat>)
    ensures forall x :: x in e <==> x in s
  {
    if s == [] then {} else Elems(s[..|s| - 1]) + {s[|s| - 1]}
  }

  lemma {:induction false} IncreasingCardinality(s: seq<nat>)
    requires forall j, k :: 0 <= j < k < |s| ==> s[j] < s[k]
    ensures |Elems(s)| == |s|
  {
    if s != [] {
      var p := s[..|s| - 1];
      IncreasingCardinality(p);
      assert s[|s| - 1] !in Elems(p);
    }
  }

  /** Every edited position below `n` is listed once. */
  lemma EditedIndicesCount(edits: EditMap, n: nat)
    requires EditsInRange(edits, n)
    ensures |EditedIndices(edits, n)| == |edits|
  {
    var ix := EditedIndices(edits, n);
    IncreasingCardinality(ix);
    assert Elems(ix) == edits.Keys;
  }

  /** Edit positions that point at existing rows. */
  predicate EditsInRange(edits: EditMap, n: nat) {
    forall k :: k in edits ==> k < n
  }

  /** `rowsToRetry`: one record per edited row. */
  function RetryRows(failed: seq<FailedRow>, edits: EditMap, headers: seq<string>): (rs: seq<RetryRow>)
    requires EditsInRange(edits, |failed|)
    ensures |rs| == |edits|
  {
    var ix := EditedIndices(edits, |failed|);
    EditedIndicesCount(edits, |failed|);
    seq(|ix|, j requires 0 <= j < |ix| => RetryRowFor(failed[ix[j]], edits[ix[j]], headers))
  }

  /** The records are sent in ascending table order: the j-th record is built
      from the j-th edited position, so every edited row is sent exactly once. */
  lemma RetryRowsSpec(failed: seq<FailedRow>, edits: EditMap, headers: seq<string>)
    requires EditsInRange(edits, |failed|)
    ensures var rs := RetryRows(failed, edits, headers);
      var ix := EditedIndices(edits, |failed|);
      |rs| == |ix| &&
      forall j :: 0 <= j < |rs| ==> ix[j] < |failed| && ix[j] in edits && rs[j] == RetryRowFor(failed[ix[j]], edits[ix[j]], headers)
  {
    EditedIndicesCount(edits, |failed|);
    var ix: seq<nat> := EditedIndices(edits, |failed|);
    var rs := RetryRows(failed, edits, headers);
    forall j | 0 <= j < |rs|
      ensures ix[j] < |failed| && ix[j] in edits && rs[j] == RetryRowFor(failed[ix[j]], edits[ix[j]], headers)
    {
    }
  }

  // ----- reconciliation -----

  /** `newErrors.find(err => err.row === row)`. */
  function FindFailure(newErrors: seq<RowFailure>, row: int): (f: Option<RowFailure>)
    ensures f.Some? ==> f.value in newErrors && f.value.row == row
    ensures f.None? <==> forall e :: e in newErrors ==> e.row != row
  {
    if newErrors == [] then None
    else if newErrors[0].row == row then Some(newErrors[0])
    else FindFailure(newErrors[1..], row)
  }

  /** The columns of a rebuilt row: the five field headers, each once. */
  function RoleHeaders(headers: seq<string>): seq<string> {
    Dedup([HeaderFor(headers, Qr), HeaderFor(headers, Email), HeaderFor(headers, FirstName),
           HeaderFor(headers, LastName), HeaderFor(headers, GuestType)])
  }

  /** `updatedData`: the five field columns, each holding its merged value. */
  function RebuiltData(edits: Edits, data: RowData, headers: seq<string>): (d: RowData)
    ensures Headers(d) == RoleHeaders(headers)
    ensures forall c :: c in d ==> c.value == Merge(edits, data, c.header)
  {
    var hs := RoleHeaders(headers);
    seq(|hs|, i requires 0 <= i < |hs| => Cell(hs[i], Merge(edits, data, hs[i])))
  }

  lemma RoleHeaderListed(headers: seq<string>, r: Role)
    ensures HeaderFor(headers, r) in RoleHeaders(headers)
  {
    var l := [HeaderFor(headers, Qr), HeaderFor(headers, Email), HeaderFor(headers, FirstName),
              HeaderFor(headers, LastName), HeaderFor(headers, GuestType)];
    assert HeaderFor(headers, r) in l by {
      match r
      case Qr => assert l[0] == HeaderFor(headers, r);
      case Email => assert l[1] == HeaderFor(headers, r);
      case FirstName => assert l[2] == HeaderFor(headers, r);
      case LastName => assert l[3] == HeaderFor(headers, r);
      case GuestType => assert l[4] == HeaderFor(headers, r);
    }
  }

  /** A rebuilt row has one column per distinct field header, and looking up
      a field's header yields that field's merged value. */
  lemma RebuiltDataFields(edits: Edits, data: RowData, headers: seq<string>)
    ensures Distinct(Headers(RebuiltData(edits, data, headers)))
    ensures forall r: Role :: Lookup(RebuiltData(edits, data, headers), HeaderFor(headers, r))
                              == Some(MergedField(edits, data, headers, r))
  {
    var d := RebuiltData(edits, data, headers);
    var hs := RoleHeaders(headers);
    forall r: Role ensures Lookup(d, HeaderFor(headers, r)) == Some(MergedField(edits, data, headers, r)) {
      var h := HeaderFor(headers, r);
      RoleHeaderListed(headers, r);
      var i :| 0 <= i < |hs| && hs[i] == h;
      assert d[i].header == Headers(d)[i] == h;
      var v := Lookup(d, h);
      assert v.Some?;
      var j :| 0 <= j < |d| && d[j] == Cell(h, v.value);
      assert d[j] in d;
    }
  }

  /** What retry does to the row at table position `i`: drop it when it
      succeeded, refresh it when it failed again, keep it otherwise. */
  function ReconcileRow(fr: FailedRow, i: nat, edits: EditMap, headers: seq<string>,
                        newErrors: seq<RowFailure>, successful: seq<int>): (o: Option<FailedRow>)
    ensures o.None? <==> fr.row in successful
    ensures o.Some? ==> o.value.row == fr.row
  {
    if fr.row in successful then None
    else
      var e := FindFailure(newErrors, fr.row);
      if e.Some? then
        Some(FailedRow(e.value.row, RebuiltData(EditsAt(edits, i), fr.data, headers), e.value.errors, e.value.errorFields))
      else Some(fr)
  }

  /** `updatedFailedRows` for the rows from position `from` on. */
  function ReconcileFrom(failed: seq<FailedRow>, from: nat, edits: EditMap, headers: seq<string>,
                         newErrors: seq<RowFailure>, successful: seq<int>): seq<FailedRow>
    requires from <= |failed|
    decreases |failed| - from
  {
    if from == |failed| then []
    else
      var o := ReconcileRow(failed[from], from, edits, headers, newErrors, successful);
      (if o.Some? then [o.value] else []) + ReconcileFrom(failed, from + 1, edits, headers, newErrors, successful)
  }

  /** `failedRows.map(...).filter(row => row !== null)`. */
  function Reconcile(failed: seq<FailedRow>, edits: EditMap, headers: seq<string>,
                     newErrors: seq<RowFailure>, successful: seq<int>): seq<FailedRow>
  {
    ReconcileFrom(failed, 0, edits, headers, newErrors, successful)
  }

  /** The table positions from `from` on whose row did not succeed, ascending. */
  function SurvivorsFrom(failed: seq<FailedRow>, from: nat, successful: seq<int>): (s: seq<nat>)
    requires from <= |failed|
    ensures forall k :: 0 <= k < |s| ==> from <= s[k] < |failed| && failed[s[k]].row !in successful
    ensures forall j, k :: 0 <= j < k < |s| ==> s[j] < s[k]
    decreases |failed| - from
  {
    if from == |failed| then []
    else (if failed[from].row in successful then [] else [from]) + SurvivorsFrom(failed, from + 1, successful)
  }

  function Survivors(failed: seq<FailedRow>, successful: seq<int>): seq<nat> {
    SurvivorsFrom(failed, 0, successful)
  }

  function RowNumbers(rows: seq<FailedRow>): (ns: seq<int>)
    ensures |ns| == |rows| && forall i :: 0 <= i < |rows| ==> ns[i] == rows[i].row
  {
    seq(|rows|, i requires 0 <= i < |rows| => rows[i].row)
  }

  /** Reconciliation, position by position: the k-th surviving row is the
      reconciled form of the k-th table position whose row did not succeed. */
  lemma {:induction false} ReconcileFromSurvivors(failed: seq<FailedRow>, from: nat, edits: EditMap, headers: seq<string>,
                                                  newErrors: seq<RowFailure>, successful: seq<int>)
    requires from <= |failed|
    ensures var out := ReconcileFrom(failed, from, edits, headers, newErrors, successful);
      var s := SurvivorsFrom(failed, from, successful);
      |out| == |s| &&
      forall k :: 0 <= k < |s| ==> Some(out[k]) == ReconcileRow(failed[s[k]], s[k], edits, headers, newErrors, successful)
    decreases |failed| - from
  {
    if from < |failed| {
      ReconcileFromSurvivors(failed, from + 1, edits, headers, newErrors, successful);
      var o := ReconcileRow(failed[from], from, edits, headers, newErrors, successful);
      var rest := ReconcileFrom(failed, from + 1, edits, headers, newErrors, successful);
      var survivors := SurvivorsFrom(failed, from + 1, successful);
      if o.Some? {
        var out := ReconcileFrom(failed, from, edits, headers, newErrors, successful);
        var sv := SurvivorsFrom(failed, from, successful);
        assert out == [o.value] + rest;
        assert sv == [from] + survivors;
        forall k | 1 <= k < |sv|
          ensures Some(out[k]) == ReconcileRow(failed[sv[k]], sv[k], edits, headers, newErrors, successful)
        {
          assert out[k] == rest[k - 1] && sv[k] == survivors[k - 1];
        }
      } else {
        assert ReconcileFrom(failed, from, edits, headers, newErrors, successful) == rest;
        assert SurvivorsFrom(failed, from, successful) == survivors;
      }
    }
  }

  /** The reconciliation contract: rows that succeeded are removed, the others
      keep their relative order; a row that failed again carries the new
      errors and its rebuilt five-field data, and every other row is returned
      unchanged. */
  lemma {:induction false} ReconcileSpec(failed: seq<FailedRow>, edits: EditMap, headers: seq<string>,
                                         newErrors: seq<RowFailure>, successful: seq<int>)
    ensures var out := Reconcile(failed, edits, headers, newErrors, successful);
      var s := Survivors(failed, successful);
      |out| == |s| &&
      (forall k :: 0 <= k < |s| ==> out[k].row == failed[s[k]].row && out[k].row !in successful) &&
      (forall k :: 0 <= k < |s| && FindFailure(newErrors, out[k].row).None? ==> out[k] == failed[s[k]]) &&
      (forall k :: 0 <= k < |s| && FindFailure(newErrors, out[k].row).Some? ==>
         out[k].errors == FindFailure(newErrors, out[k].row).value.errors &&
         out[k].errorFields == FindFailure(newErrors, out[k].row).value.errorFields &&
         out[k].data == RebuiltData(EditsAt(edits, s[k]), failed[s[k]].data, headers))
  {
    ReconcileFromSurvivors(failed, 0, edits, headers, newErrors, successful);
  }

  /** The row numbers after reconciliation are exactly the row numbers that
      did not succeed, in their original order. */
  lemma {:induction false} ReconcileRowNumbers(failed: seq<FailedRow>, from: nat, edits: EditMap, headers: seq<string>,
                                               newErrors: seq<RowFailure>, successful: seq<int>)
    requires from <= |failed|
    ensures RowNumbers(ReconcileFrom(failed, from, edits, headers, newErrors, successful))
         == RemoveAll(RowNumbers(failed[from..]), successful)
    decreases |failed| - from
  {
    if from < |failed| {
      ReconcileRowNumbers(failed, from + 1, edits, headers, newErrors, successful);
      assert RowNumbers(failed[from..]) == [failed[from].row] + RowNumbers(failed[from + 1..]);
    } else {
      assert failed[from..] == [];
    }
  }

  /** `xs.filter(x => !ys.includes(x))`. */
  function RemoveAll(xs: seq<int>, ys: seq<int>): (r: seq<int>)
    ensures forall x :: x in r <==> x in xs && x !in ys
  {
    if xs == [] then []
    else (if xs[0] in ys then [] else [xs[0]]) + RemoveAll(xs[1..], ys)
  }

  // ----- re-keying the edits -----

  /** `failedRows.findIndex(r => r.row === row)`. */
  function FirstIndexOfRow(failed: seq<FailedRow>, row: int): (i: Option<nat>)
    ensures i.Some? ==> i.value < |failed| && failed[i.value].row == row &&
                        forall j :: 0 <= j < i.value ==> failed[j].row != row
    ensures i.None? <==> forall j :: 0 <= j < |failed| ==> failed[j].row != row
  {
    if failed == [] then None
    else if failed[0].row == row then Some(0)
    else
      var i := FirstIndexOfRow(failed[1..], row);
      assert forall j :: 1 <= j < |failed| ==> failed[j] == failed[1..][j - 1];
      if i.Some? then Some(i.value + 1) else None
  }

  /** The edits recorded at the old position of the row numbered `row`. */
  function EditsForRow(failed: seq<FailedRow>, edits: EditMap, row: int): Option<Edits> {
    var i := FirstIndexOfRow(failed, row);
    if i.Some? && i.value in edits then Some(edits[i.value]) else None
  }

  /** `remainingEdits`: position `idx` of the new table gets the edits of the
      old position that held the same row number. */
  function RekeyedEdits(failed: seq<FailedRow>, updated: seq<FailedRow>, edits: EditMap): (m: EditMap)
    ensures forall idx: nat :: idx in m <==> idx < |updated| && EditsForRow(failed, edits, updated[idx].row).Some?
    ensures forall idx: nat :: idx in m ==> m[idx] == EditsForRow(failed, edits, updated[idx].row).value
  {
    map idx: nat | idx < |updated| && EditsForRow(failed, edits, updated[idx].row).Some?
      :: EditsForRow(failed, edits, updated[idx].row).value
  }

  /** The `forEach` loop that writes `remainingEdits` key by key. */
  method RekeyEdits(failed: seq<FailedRow>, updated: seq<FailedRow>, edits: EditMap) returns (remaining: EditMap)
    ensures remaining == RekeyedEdits(failed, updated, edits)
  {
    remaining := map[];
    var idx := 0;
    while idx < |updated|
      invariant 0 <= idx <= |updated|
      invariant forall k: nat :: k in remaining <==> k < idx && EditsForRow(failed, edits, updated[k].row).Some?
      invariant forall k: nat :: k in remaining ==> remaining[k] == EditsForRow(failed, edits, updated[k].row).value
    {
      var originalIndex := FirstIndexOfRow(failed, updated[idx].row);
      if originalIndex.Some? && originalIndex.value in edits {
        remaining := remaining[idx := edits[originalIndex.value]];
      }
      idx := idx + 1;
    }
  }

  /** Row numbers identify rows: no two entries share one. */
  predicate UniqueRows(failed: seq<FailedRow>) {
    forall i, j :: 0 <= i < j < |failed| ==> failed[i].row != failed[j].row
  }

  /** After a retry, the edits follow their rows: the surviving row now at
      position `k` keeps exactly the edits made at its old position, and an
      edit made on a row that succeeded survives nowhere. */
  lemma {:induction false} EditsFollowRows(failed: seq<FailedRow>, edits: EditMap, headers: seq<string>,
                                           newErrors: seq<RowFailure>, successful: seq<int>)
    requires UniqueRows(failed)
    ensures var out := Reconcile(failed, edits, headers, newErrors, successful);
      var s := Survivors(failed, successful);
      var m := RekeyedEdits(failed, out, edits);
      |out| == |s| && EditsInRange(m, |out|) &&
      (forall k: nat :: k < |out| ==> (k in m <==> s[k] in edits) && (k in m ==> m[k] == edits[s[k]])) &&
      (forall k: nat :: k in m ==> failed[s[k]].row !in successful)
  {
    ReconcileSpec(failed, edits, headers, newErrors, successful);
    var out := Reconcile(failed, edits, headers, newErrors, successful);
    var s := Survivors(failed, successful);
    forall k | 0 <= k < |out|
      ensures FirstIndexOfRow(failed, out[k].row) == Some(s[k])
    {
      var i := FirstIndexOfRow(failed, out[k].row);
      assert failed[s[k]].row == out[k].row;
      assert i.Some?;
      assert failed[i.value].row == failed[s[k]].row;
    }
  }

  /** The worked example of a retry: rows 3 and 7 failed, the operator edited
      row 7 (position 1) and the retry accepted it. Row 3 remains untouched and
      no edit survives. */
  lemma RetryExample(d3: RowData, d7: RowData, e: Edits, headers: seq<string>, errs: seq<string>, fields: seq<string>)
    ensures var failed := [FailedRow(3, d3, errs, fields), FailedRow(7, d7, errs, fields)];
      var out := Reconcile(failed, map[1 := e], headers, [], [7]);
      out == [failed[0]] && RekeyedEdits(failed, out, map[1 := e]) == map[]
  {
    var failed := [FailedRow(3, d3, errs, fields), FailedRow(7, d7, errs, fields)];
    var out := Reconcile(failed, map[1 := e], headers, [], [7]);
    assert ReconcileFrom(failed, 2, map[1 := e], headers, [], [7]) == [];
    assert ReconcileFrom(failed, 1, map[1 := e], headers, [], [7]) == [];
    assert ReconcileFrom(failed, 0, map[1 := e], headers, [], [7]) == [failed[0]];
    assert FirstIndexOfRow(failed, 3) == Some(0);
  }

  /** A reply with no new errors and no accepted row, to a request posted
      with an edit only at position 0: the table is kept and the edits become
      exactly the posted ones. An edit at position 1 made while the request
      was in flight is not in the snapshot, so it does not survive. */
  lemma InFlightEditDropped(r0: FailedRow, r1: FailedRow, e: Edits, headers: seq<string>)
    requires r0.row != r1.row
    ensures var failed := [r0, r1];
      var out := Reconcile(failed, map[0 := e], headers, [], []);
      out == failed && RekeyedEdits(failed, out, map[0 := e]) == map[0 := e]
  {
    var failed := [r0, r1];
    var edits := map[0 := e];
    assert ReconcileFrom(failed, 2, edits, headers, [], []) == [];
    assert ReconcileFrom(failed, 1, edits, headers, [], []) == [r1];
    assert ReconcileFrom(failed, 0, edits, headers, [], []) == [r0, r1];
    assert FirstIndexOfRow(failed, r0.row) == Some(0);
    assert FirstIndexOfRow(failed, r1.row) == Some(1);
  }

  // ----- the correction loop's state -----

  /** The upload reply: `{message, errors}` or a failed request. */
  datatype UploadReply =
    | UploadResponse(message: string, errors: seq<FailedRow>)
    | UploadFailed(serverMessage: Option<string>)

  /** The retry reply: `{message, errors, successfulRows}` or a failed request. */
  datatype RetryReply =
    | RetryResponse(message: string, newErrors: seq<RowFailure>, successfulRows: seq<int>)
    | RetryFailed(serverMessage: Option<string>)

  /** The editing of one cell: `editedRows[index][field] = value`. */
  function EditCell(edits: EditMap, index: nat, field: string, value: string): (m: EditMap)
    ensures index in m && field in m[index] && m[index][field] == value
    ensures m.Keys == edits.Keys + {index}
    ensures forall j :: j in edits && j != index ==> m[j] == edits[j]
    ensures forall f :: f != field ==> (f in m[index] <==> f in EditsAt(edits, index)) &&
                                       (f in m[index] ==> m[index][f] == EditsAt(edits, index)[f])
  {
    edits[index := EditsAt(edits, index)[field := value]]
  }

  /** What `handleRetry` reads before it awaits the reply: the table, its
      edits and its headers. */
  datatype RetrySnapshot = RetrySnapshot(failedRows: seq<FailedRow>, editedRows: EditMap, errorHeaders: seq<string>)

  class ImportCorrection {
    var failedRows: seq<FailedRow>
    var editedRows: EditMap
    var errorHeaders: seq<string>
    var isImportModalOpen: bool
    var isFileUploadModalOpen: bool
    var isErrorTableOpen: bool
    var isErrorModalOpen: bool
    var error: string
    /** The messages shown with `alert`, oldest first. */
    var alerts: seq<string>

    /** Every edit belongs to a row of the table. */
    ghost predicate Valid()
      reads this
    {
      EditsInRange(editedRows, |failedRows|)
    }

    constructor ()
      ensures Valid()
      ensures failedRows == [] && editedRows == map[] && errorHeaders == []
      ensures !isImportModalOpen && !isFileUploadModalOpen && !isErrorTableOpen && !isErrorModalOpen
      ensures error == "" && alerts == []
    {
      failedRows, editedRows, errorHeaders := [], map[], [];
      isImportModalOpen, isFileUploadModalOpen, isErrorTableOpen, isErrorModalOpen := false, false, false, false;
      error, alerts := "", [];
    }

    /** `hasEdits()`: some row has an edit; the retry button is enabled. */
    predicate HasEdits()
      reads this
    {
      |editedRows| > 0
    }

    /** `handleRowEdit(index, field, value)`. */
    method RowEdit(index: nat, field: string, value: string)
      requires Valid() && index < |failedRows|
      modifies this`editedRows
      ensures Valid()
      ensures editedRows == EditCell(old(editedRows), index, field, value)
    {
      editedRows := editedRows[index := EditsAt(editedRows, index)[field := value]];
    }

    /** `onDrop(acceptedFiles)` followed by the upload reply. Returns whether a
        request was sent. */
    method Drop(acceptedFiles: nat, reply: UploadReply, t: string -> string) returns (requested: bool)
      requires Valid()
      modifies this
      ensures Valid()
      ensures requested <==> acceptedFiles > 0
      ensures !requested ==>
        (error == t("error") + ": " + t("invalidFileType") && isErrorModalOpen &&
         TableUnchanged() && alerts == old(alerts))
      ensures requested && reply.UploadResponse? && reply.errors != [] ==>
        (alerts == old(alerts) + [reply.message] && error == "" &&
         failedRows == reply.errors && errorHeaders == Headers(reply.errors[0].data) &&
         editedRows == map[] && isErrorTableOpen &&
         isImportModalOpen == old(isImportModalOpen) && isFileUploadModalOpen == old(isFileUploadModalOpen) &&
         isErrorModalOpen == old(isErrorModalOpen))
      ensures requested && reply.UploadResponse? && reply.errors == [] ==>
        (alerts == old(alerts) + [reply.message] && error == "" &&
         !isImportModalOpen && !isFileUploadModalOpen &&
         failedRows == old(failedRows) && editedRows == old(editedRows) && errorHeaders == old(errorHeaders) &&
         isErrorTableOpen == old(isErrorTableOpen) && isErrorModalOpen == old(isErrorModalOpen))
      ensures requested && reply.UploadFailed? ==>
        (error == t("error") + ": " + Or(reply.serverMessage, t("uploadFailed")) && isErrorModalOpen &&
         TableUnchanged() && alerts == old(alerts))
    {
      if acceptedFiles == 0 {
        error := t("error") + ": " + t("invalidFileType");
        isErrorModalOpen := true;
        return false;
      }
      requested := true;
      match reply
      case UploadResponse(message, errors) =>
        alerts := alerts + [message];
        if |errors| > 0 {
          failedRows := errors;
          errorHeaders := Headers(errors[0].data);
          editedRows := map[];
          isErrorTableOpen := true;
        } else {
          isFileUploadModalOpen := false;
          isImportModalOpen := false;
        }
        error := "";
      case UploadFailed(serverMessage) =>
        error := t("error") + ": " + Or(serverMessage, t("uploadFailed"));
        isErrorModalOpen := true;
    }

    /** The first half of `handleRetry`: nothing happens without edits;
        otherwise the rows to post are built from the edits. The table, its
        edits and its headers as read here are returned: the reply is
        reconciled against them, whatever happens while it is awaited. */
    method RetryRequest() returns (rows: Option<seq<RetryRow>>, snapshot: RetrySnapshot)
      requires Valid()
      ensures snapshot == RetrySnapshot(failedRows, editedRows, errorHeaders)
      ensures !HasEdits() ==> rows.None?
      ensures HasEdits() ==> rows == Some(RetryRows(failedRows, editedRows, errorHeaders))
    {
      snapshot := RetrySnapshot(failedRows, editedRows, errorHeaders);
      if !HasEdits() {
        return None, snapshot;
      }
      rows := Some(RetryRows(failedRows, editedRows, errorHeaders));
    }

    /** The second half of `handleRetry`: the reply to the rows posted from
        `snapshot`. A success replaces the table and its edits with those
        computed from the snapshot, so an edit made while the request was in
        flight is dropped. */
    method RetryReplied(snapshot: RetrySnapshot, reply: RetryReply, t: string -> string)
      requires Valid()
      modifies this
      ensures Valid()
      ensures reply.RetryFailed? ==>
        (error == t("error") + ": " + Or(reply.serverMessage, t("retryFailed")) && isErrorModalOpen &&
         TableUnchanged() && alerts == old(alerts))
      ensures reply.RetryResponse? ==>
        (alerts == old(alerts) + [reply.message] &&
         RetryApplied(snapshot, old(errorHeaders), old(isImportModalOpen), old(isFileUploadModalOpen),
                      reply.newErrors, reply.successfulRows) &&
         error == old(error) && isErrorModalOpen == old(isErrorModalOpen))
    {
      match reply
      case RetryFailed(serverMessage) =>
        error := t("error") + ": " + Or(serverMessage, t("retryFailed"));
        isErrorModalOpen := true;
      case RetryResponse(message, newErrors, successfulRows) =>
        alerts := alerts + [message];
        ApplyRetryResponse(snapshot, newErrors, successfulRows);
    }

    /** The failure table, its edits and the import dialogs are as before. */
    twostate predicate TableUnchanged()
      reads this
    {
      failedRows == old(failedRows) && editedRows == old(editedRows) && errorHeaders == old(errorHeaders) &&
      isErrorTableOpen == old(isErrorTableOpen) && isImportModalOpen == old(isImportModalOpen) &&
      isFileUploadModalOpen == old(isFileUploadModalOpen)
    }

    /** The table after a successful retry reply: the snapshot's rows
        reconciled, with the snapshot's edits re-keyed; the table stays open
        on the first remaining row's columns, or closes together with both
        import dialogs once every row has been accepted (the headers then
        stay as they were). */
    predicate RetryApplied(snapshot: RetrySnapshot, headersBefore: seq<string>,
                           importOpen: bool, uploadOpen: bool,
                           newErrors: seq<RowFailure>, successful: seq<int>)
      reads this
    {
      var failed := snapshot.failedRows;
      var updated := Reconcile(failed, snapshot.editedRows, snapshot.errorHeaders, newErrors, successful);
      failedRows == updated &&
      editedRows == RekeyedEdits(failed, updated, snapshot.editedRows) &&
      (updated != [] ==> errorHeaders == Dedup(Headers(updated[0].data)) && isErrorTableOpen &&
                         isImportModalOpen == importOpen && isFileUploadModalOpen == uploadOpen) &&
      (updated == [] ==> errorHeaders == headersBefore && !isErrorTableOpen && !isImportModalOpen && !isFileUploadModalOpen)
    }

    /** The success branch of `handleRetry`, computed from the snapshot. */
    method ApplyRetryResponse(snapshot: RetrySnapshot, newErrors: seq<RowFailure>, successful: seq<int>)
      modifies this`failedRows, this`editedRows, this`errorHeaders, this`isErrorTableOpen,
               this`isFileUploadModalOpen, this`isImportModalOpen
      ensures Valid()
      ensures RetryApplied(snapshot, old(errorHeaders), old(isImportModalOpen), old(isFileUploadModalOpen),
                           newErrors, successful)
    {
      var failed := snapshot.failedRows;
      var updated := Reconcile(failed, snapshot.editedRows, snapshot.errorHeaders, newErrors, successful);
      var remaining := RekeyEdits(failed, updated, snapshot.editedRows);
      failedRows := updated;
      editedRows := remaining;
      if |updated| > 0 {
        errorHeaders := Dedup(Headers(updated[0].data));
        isErrorTableOpen := true;
      } else {
        isErrorTableOpen := false;
        failedRows := [];
        isFileUploadModalOpen := false;
        isImportModalOpen := false;
      }
    }

    /** `handleIgnoreErrors`: drop every pending row and edit. */
    method IgnoreErrors()
      modifies this
      ensures Valid()
      ensures failedRows == [] && editedRows == map[]
      ensures !isErrorTableOpen && !isFileUploadModalOpen && !isImportModalOpen
      ensures errorHeaders == old(errorHeaders) && error == old(error) &&
              isErrorModalOpen == old(isErrorModalOpen) && alerts == old(alerts)
    {
      isErrorTableOpen := false;
      failedRows := [];
      isFileUploadModalOpen := false;
      isImportModalOpen := false;
      editedRows := map[];
    }
  }
}
