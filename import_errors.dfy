/** The two presentation rules of the failure table: the marking of a cell
    whose column names a field the backend rejected (`getInputClass`), and
    the localisation of a row error such as `Invalid email (row: 5)`
    (`translateError`). */
module ImportErrors {
  import opened Js
  import opened BulkImport

  // ----- the error-cell marker -----

  /** The `errorFields` entry the backend reports for each field. */
  function FieldKey(r: Role): string {
    match r
    case Qr => "qrId"
    case Email => "email"
    case FirstName => "firstName"
    case LastName => "lastName"
    case GuestType => "guestType"
  }

  /** The substrings the marker looks for; for the QR column it tests `qrid`
      beside `qr`. */
  function MarkerKeywords(r: Role): seq<string> {
    match r
    case Qr => ["qr", "qrid"]
    case Email => ["email", "eposta", "courriel"]
    case FirstName => ["first", "isim", "prenom"]
    case LastName => ["last", "soy", "nom"]
    case GuestType => ["guest", "misafir", "type"]
  }

  /** Field `r` is reported and the header names it. */
  predicate Marks(errorFields: seq<string>, header: string, r: Role) {
    FieldKey(r) in errorFields && MatchesAny(header, MarkerKeywords(r))
  }

  /** The `isInvalid` test, field by field in the order the code lists them. */
  predicate IsInvalidCell(errorFields: seq<string>, header: string) {
    Marks(errorFields, header, Email) || Marks(errorFields, header, FirstName) ||
    Marks(errorFields, header, LastName) || Marks(errorFields, header, GuestType) ||
    Marks(errorFields, header, Qr)
  }

  /** `getInputClass(row, header)`: the CSS class of one cell. */
  function InputClass(fr: FailedRow, header: string): (c: string)
    ensures fr.errorFields == [] ==> c == "form-control"
    ensures c == "form-control is-invalid" ==> exists r :: FieldKey(r) in fr.errorFields
  {
    if IsInvalidCell(fr.errorFields, header) then "form-control is-invalid" else "form-control"
  }

  /** The extra `qrid` test never changes the verdict: `qrid` contains `qr`. */
  lemma {:induction false} QrMarkerAgrees(h: string)
    ensures MatchesAny(h, MarkerKeywords(Qr)) <==> MatchesRole(h, Qr)
  {
    var n := Normalize(h);
    assert MarkerKeywords(Qr)[1..] == ["qrid"] && ["qrid"][1..] == [];
    assert Keywords(Qr)[1..] == [];
    assert IncludesAny(n, ["qrid"]) == Includes(n, "qrid") by {
      assert IncludesAny(n, ["qrid"][1..]) == false;
    }
    assert IncludesAny(n, ["qr"]) == Includes(n, "qr") by {
      assert IncludesAny(n, ["qr"][1..]) == false;
    }
    if Includes(n, "qrid") {
      assert "qrid" == "qr" + "id";
      IncludesPrefix(n, "qr", "id");
    }
  }

  /** The marker uses the same header test as the retry: a cell is marked
      exactly when some reported field is one its header matches. */
  lemma {:induction false} MarkerAgreesWithRetry(errorFields: seq<string>, h: string)
    ensures IsInvalidCell(errorFields, h) <==> exists r :: FieldKey(r) in errorFields && MatchesRole(h, r)
  {
    QrMarkerAgrees(h);
    assert forall r :: r != Qr ==> MarkerKeywords(r) == Keywords(r);
    if exists r :: FieldKey(r) in errorFields && MatchesRole(h, r) {
      var r :| FieldKey(r) in errorFields && MatchesRole(h, r);
      assert Marks(errorFields, h, r);
    }
  }

  /** The column the retry reads a rejected field from is marked in that row. */
  lemma {:induction false} RetryColumnMarked(fr: FailedRow, headers: seq<string>, r: Role)
    requires FieldKey(r) in fr.errorFields
    requires exists i :: 0 <= i < |headers| && MatchesRole(headers[i], r)
    ensures InputClass(fr, HeaderFor(headers, r)) == "form-control is-invalid"
  {
    HeaderForIsFirstMatching(headers, r);
    MarkerAgreesWithRetry(fr.errorFields, HeaderFor(headers, r));
  }

  // ----- the row-error parser -----

  /** The three spellings of the row label: Turkish, English and French. */
  const Satir := "satır"
  const RowLabel := "row"
  const Ligne := "ligne"

  predicate IsLabel(word: string) {
    word == Satir || word == RowLabel || word == Ligne
  }

  /** `\s*\(<label>:\s*(\d+)\)` matched at the start of `s`: the digits of
      the row number. The leading `\s*` is skipped here. */
  function RowTag(s: string, word: string): Option<string>
    decreases |s|
  {
    if s != [] && IsSpace(s[0]) then RowTag(s[1..], word) else TagAt(s, word)
  }

  /** The pattern from its opening parenthesis on: `\(<label>:`, then the number. */
  function TagAt(a: string, word: string): Option<string> {
    var p := "(" + word + ":";
    if StartsWith(a, p) then RowNumber(a[|p|..]) else None
  }

  /** `\s*(\d+)\)`: spaces, the longest run of digits, a closing parenthesis. */
  function RowNumber(b: string): Option<string>
    decreases |b|
  {
    if b != [] && IsSpace(b[0]) then RowNumber(b[1..])
    else
      var k := DigitPrefixLength(b, 10);
      if 0 < k < |b| && b[k] == ')' then Some(b[..k]) else None
  }

  lemma {:induction false} RowNumberDigits(b: string)
    requires RowNumber(b).Some?
    ensures RowNumber(b).value != [] && AllDigits(RowNumber(b).value)
    decreases |b|
  {
    if b != [] && IsSpace(b[0]) {
      RowNumberDigits(b[1..]);
    } else {
      var k := DigitPrefixLength(b, 10);
      assert forall i :: 0 <= i < k ==> DigitValue(b[..k][i], 10).Some?;
    }
  }

  /** The second group is a non-empty run of decimal digits. */
  lemma {:induction false} RowTagDigits(s: string, word: string)
    requires RowTag(s, word).Some?
    ensures RowTag(s, word).value != [] && AllDigits(RowTag(s, word).value)
    decreases |s|
  {
    if s != [] && IsSpace(s[0]) {
      RowTagDigits(s[1..], word);
    } else {
      RowNumberDigits(s[|"(" + word + ":"|..]);
    }
  }

  /** The lazy group `(.+?)` begun at `i`: the first end `j` at which the rest
      of the pattern matches, as long as the group crosses no line terminator;
      with that end come the row digits. */
  function LazyEnd(s: string, i: nat, j: nat, word: string): (e: Option<(nat, string)>)
    requires i < j <= |s|
    ensures e.Some? ==> j <= e.value.0 <= |s|
    decreases |s| - j
  {
    if IsLineTerminator(s[j - 1]) then None
    else
      var d := RowTag(s[j..], word);
      if d.Some? then Some((j, d.value))
      else if j == |s| then None
      else LazyEnd(s, i, j + 1, word)
  }

  /** The leftmost start from `i` on at which the pattern matches, with the
      end of its first group and the row digits. */
  function MatchFrom(s: string, i: nat, word: string): (m: Option<(nat, nat, string)>)
    ensures m.Some? ==> i <= m.value.0 < m.value.1 <= |s|
    decreases |s| - i
  {
    if i >= |s| then None
    else
      match LazyEnd(s, i, i + 1, word)
      case Some((j, d)) => Some((i, j, d))
      case None => MatchFrom(s, i + 1, word)
  }

  /** `s.match(/(.+?)\s*\(<label>:\s*(\d+)\)/)`: the two groups, or `None` for `null`. */
  function MatchTag(s: string, word: string): Option<(string, string)> {
    match MatchFrom(s, 0, word)
    case None => None
    case Some((i, j, d)) => Some((s[i..j], d))
  }

  /** The Turkish pattern first, then the English one, then the French one. */
  function ParseRowTag(s: string): Option<(string, string)> {
    var m := MatchTag(s, Satir);
    if m.Some? then m
    else
      var m' := MatchTag(s, RowLabel);
      if m'.Some? then m' else MatchTag(s, Ligne)
  }

  /** The keys whose translations are searched for the base message. */
  const TranslationKeys := [
    "invalidEmail", "missingFirstName", "missingLastName", "missingQrId",
    "duplicateEmailInFile", "duplicateEmailInDb", "duplicateQrIdInDb",
    "plusOneNotAllowed", "invalidGuestType"]

  /** The first key whose translation, given the row number, contains `base`. */
  function FirstKeyContaining(keys: seq<string>, t2: (string, string) -> string, row: string, base: string): (k: Option<nat>)
    ensures k.Some? ==> k.value < |keys| && Includes(t2(keys[k.value], row), base) &&
                        forall i :: 0 <= i < k.value ==> !Includes(t2(keys[i], row), base)
    ensures k.None? <==> forall i :: 0 <= i < |keys| ==> !Includes(t2(keys[i], row), base)
  {
    if keys == [] then None
    else if Includes(t2(keys[0], row), base) then Some(0)
    else
      var k := FirstKeyContaining(keys[1..], t2, row, base);
      assert forall i :: 1 <= i < |keys| ==> keys[i] == keys[1..][i - 1];
      if k.Some? then Some(k.value + 1) else None
  }

  /** One entry of `translateError`: `t` is the plain lookup and `t2` the
      lookup with the `row` parameter. */
  function TranslateError(error: string, t: string -> string, t2: (string, string) -> string): string {
    var m := ParseRowTag(error);
    if m.Some? then
      var base := Trim(m.value.0);
      var k := FirstKeyContaining(TranslationKeys, t2, m.value.1, base);
      if k.Some? then t2(TranslationKeys[k.value], m.value.1) else Or(Some(t(error)), error)
    else Or(Some(t(error)), error)
  }

  /** `translateError(errors)`. */
  function TranslateErrors(errors: seq<string>, t: string -> string, t2: (string, string) -> string): (rs: seq<string>)
    ensures |rs| == |errors|
    ensures forall i :: 0 <= i < |errors| ==> rs[i] == TranslateError(errors[i], t, t2)
  {
    seq(|errors|, i requires 0 <= i < |errors| => TranslateError(errors[i], t, t2))
  }

  // ----- what the parser recovers -----

  /** The way the backend appends a row number to a message. */
  function Tagged(msg: string, word: string, digits: string): string {
    msg + TagSuffix(word, digits)
  }

  function TagSuffix(word: string, digits: string): string {
    " (" + word + ": " + digits + ")"
  }

  /** A message the lazy group reads back whole: it is not empty, has no `(`
      and no line break, and does not end in a space. */
  predicate PlainMessage(msg: string) {
    msg != [] && !IsSpace(msg[|msg| - 1]) &&
    forall i :: 0 <= i < |msg| ==> msg[i] != '(' && !IsLineTerminator(msg[i])
  }

  /** The pattern needs its opening parenthesis first. */
  lemma TagAtNeedsParen(a: string, word: string)
    requires a == [] || a[0] != '('
    ensures TagAt(a, word).None?
  {
  }

  /** Text that starts with a plain message cannot match the tag: its first
      non-space character is a character of the message, not `(`. */
  lemma {:induction false} PlainPrefixNoTag(msg: string, rest: string, word: string)
    requires PlainMessage(msg)
    ensures RowTag(msg + rest, word).None?
    decreases |msg|
  {
    var x := msg + rest;
    assert x[0] == msg[0];
    if IsSpace(msg[0]) {
      assert x[1..] == msg[1..] + rest;
      PlainSuffix(msg, 1);
      PlainPrefixNoTag(msg[1..], rest, word);
    } else {
      TagAtNeedsParen(x, word);
    }
  }

  /** A row label: not empty and without a parenthesis. */
  predicate LabelWord(w: string) {
    w != [] && forall i :: 0 <= i < |w| ==> w[i] != '('
  }

  /** The three labels are row labels and differ in their first letter. */
  lemma LabelsDistinct(word: string, other: string)
    requires IsLabel(word) && IsLabel(other) && word != other
    ensures LabelWord(word) && LabelWord(other) && word[0] != other[0]
  {
  }

  /** The tag suffix itself matches, with its digits. */
  lemma {:induction false} SuffixMatches(word: string, digits: string)
    requires digits != [] && AllDigits(digits)
    ensures RowTag(TagSuffix(word, digits), word) == Some(digits)
  {
    var x := TagSuffix(word, digits);
    var p := "(" + word + ":";
    var a := x[1..];
    assert x[0] == ' ' && a[0] == '(';
    assert RowTag(x, word) == TagAt(a, word);
    assert a == p + " " + digits + ")";
    assert StartsWith(a, p);
    var b := digits + ")";
    assert a[|p|..] == " " + b;
    assert RowNumber(a[|p|..]) == RowNumber(b) by {
      assert (" " + b)[1..] == b;
    }
    assert !IsSpace(b[0]);
    DigitPrefixBeforeStop(digits, ')');
    assert b[..|digits|] == digits;
  }

  /** A label with another first letter does not match the suffix, with or
      without its leading space. */
  lemma {:induction false} SuffixRefusesOtherLabel(word: string, other: string, digits: string, m: nat)
    requires word != [] && other != [] && word[0] != other[0] && m <= 1
    ensures RowTag(TagSuffix(word, digits)[m..], other).None?
  {
    var x := TagSuffix(word, digits);
    var a := x[1..];
    assert x[0] == ' ' && a[0] == '(';
    assert RowTag(x[m..], other) == TagAt(a, other) by {
      if m == 1 {
        assert x[m..] == a;
      }
    }
    var p := "(" + other + ":";
    assert a[1] == word[0] && p[1] == other[0];
  }

  /** Past its opening parenthesis the suffix has no other one. */
  lemma {:induction false} SuffixTailNoTag(word: string, digits: string, m: nat, other: string)
    requires LabelWord(word) && AllDigits(digits)
    requires 2 <= m <= |TagSuffix(word, digits)|
    ensures RowTag(TagSuffix(word, digits)[m..], other).None?
  {
    var x := TagSuffix(word, digits);
    assert x == " (" + word + ": " + digits + ")";
    forall i | 0 <= i < |x[m..]|
      ensures x[m..][i] != '('
    {
      var k := m + i;
      assert x[m..][i] == x[k];
      if k < 2 + |word| {
        assert x[k] == word[k - 2];
      } else if k < 4 + |word| {
      } else if k < 4 + |word| + |digits| {
        assert x[k] == digits[k - 4 - |word|];
      }
    }
    NoParenNoTag(x[m..], other);
  }

  /** Text without a parenthesis never matches the tag. */
  lemma {:induction false} NoParenNoTag(s: string, word: string)
    requires '(' !in s
    ensures RowTag(s, word).None?
    decreases |s|
  {
    if s != [] && IsSpace(s[0]) {
      NoParenSuffix(s, 1);
      NoParenNoTag(s[1..], word);
    } else {
      assert s == [] || s[0] in s;
      TagAtNeedsParen(s, word);
    }
  }

  /** What follows position `j` of a concatenation. */
  lemma DropConcat(a: string, b: string, j: nat)
    requires j <= |a + b|
    ensures j <= |a| ==> (a + b)[j..] == a[j..] + b
    ensures j >= |a| ==> (a + b)[j..] == b[j - |a|..]
  {
  }

  /** A non-empty tail of a plain message is plain. */
  lemma PlainSuffix(msg: string, j: nat)
    requires PlainMessage(msg) && j < |msg|
    ensures PlainMessage(msg[j..])
  {
    assert msg[j..][|msg[j..]| - 1] == msg[|msg| - 1];
  }

  /** No end `j` of the tagged text lets a label with another first letter match. */
  lemma {:induction false} TaggedRefusesOtherLabel(msg: string, word: string, digits: string, other: string, j: nat)
    requires PlainMessage(msg) && LabelWord(word) && LabelWord(other) && word[0] != other[0]
    requires AllDigits(digits) && j <= |Tagged(msg, word, digits)|
    ensures RowTag(Tagged(msg, word, digits)[j..], other).None?
  {
    var tail := TagSuffix(word, digits);
    DropConcat(msg, tail, j);
    if j < |msg| {
      PlainSuffix(msg, j);
      PlainPrefixNoTag(msg[j..], tail, other);
    } else if j <= |msg| + 1 {
      SuffixRefusesOtherLabel(word, other, digits, j - |msg|);
    } else {
      SuffixTailNoTag(word, digits, j - |msg|, other);
    }
  }

  /** The pattern of another label finds nothing anywhere in the tagged text. */
  lemma {:induction false} OtherLabelNoMatch(msg: string, word: string, digits: string, other: string, i: nat)
    requires PlainMessage(msg) && LabelWord(word) && LabelWord(other) && word[0] != other[0]
    requires AllDigits(digits)
    ensures MatchFrom(Tagged(msg, word, digits), i, other).None?
    decreases |Tagged(msg, word, digits)| - i
  {
    var s := Tagged(msg, word, digits);
    if i < |s| {
      OtherLabelNoEnd(msg, word, digits, other, i, i + 1);
      OtherLabelNoMatch(msg, word, digits, other, i + 1);
    }
  }

  lemma {:induction false} OtherLabelNoEnd(msg: string, word: string, digits: string, other: string, i: nat, j: nat)
    requires PlainMessage(msg) && LabelWord(word) && LabelWord(other) && word[0] != other[0]
    requires AllDigits(digits)
    requires i < j <= |Tagged(msg, word, digits)|
    ensures LazyEnd(Tagged(msg, word, digits), i, j, other).None?
    decreases |Tagged(msg, word, digits)| - j
  {
    TaggedRefusesOtherLabel(msg, word, digits, other, j);
    if j < |Tagged(msg, word, digits)| {
      OtherLabelNoEnd(msg, word, digits, other, i, j + 1);
    }
  }

  /** From any end inside the message, the lazy group grows to the whole message. */
  lemma {:induction false} LazyEndAtMessage(msg: string, word: string, digits: string, j: nat)
    requires PlainMessage(msg) && digits != [] && AllDigits(digits)
    requires 1 <= j <= |msg|
    ensures LazyEnd(Tagged(msg, word, digits), 0, j, word) == Some((|msg|, digits))
    decreases |msg| - j
  {
    var s := Tagged(msg, word, digits);
    var tail := TagSuffix(word, digits);
    assert s[j - 1] == msg[j - 1];
    DropConcat(msg, tail, j);
    if j < |msg| {
      PlainSuffix(msg, j);
      PlainPrefixNoTag(msg[j..], tail, word);
      LazyEndAtMessage(msg, word, digits, j + 1);
    } else {
      SuffixMatches(word, digits);
    }
  }

  /** The pattern of the message's own label returns the message and the digits. */
  lemma {:induction false} OwnLabelMatches(msg: string, word: string, digits: string)
    requires PlainMessage(msg) && digits != [] && AllDigits(digits)
    ensures MatchTag(Tagged(msg, word, digits), word) == Some((msg, digits))
  {
    var s := Tagged(msg, word, digits);
    LazyEndAtMessage(msg, word, digits, 1);
    var len: nat := |msg|;
    assert MatchFrom(s, 0, word) == Some((0, len, digits));
    assert s[0..|msg|] == msg;
  }

  /** The round trip of the parser: a plain message tagged with a row number in
      any of the three languages parses back to the message and the number. */
  lemma {:induction false} ParseTaggedRoundTrip(msg: string, word: string, n: nat)
    requires PlainMessage(msg) && IsLabel(word)
    ensures ParseRowTag(Tagged(msg, word, NatToDecimal(n))) == Some((msg, NatToDecimal(n)))
    ensures ParseInt(NatToDecimal(n)) == Some(n as int)
  {
    var d := NatToDecimal(n);
    OwnLabelMatches(msg, word, d);
    if word != Satir {
      LabelsDistinct(word, Satir);
      OtherLabelNoMatch(msg, word, d, Satir, 0);
      if word != RowLabel {
        LabelsDistinct(word, RowLabel);
        OtherLabelNoMatch(msg, word, d, RowLabel, 0);
      }
    }
    ParseIntOfDecimal(n);
  }

  /** A tagged error becomes the translation of the first key whose text, with
      the row number filled in, contains the trimmed message; with no such key
      it is looked up whole. */
  lemma {:induction false} TranslateTagged(msg: string, word: string, n: nat,
                                           t: string -> string, t2: (string, string) -> string)
    requires PlainMessage(msg) && IsLabel(word)
    ensures var error := Tagged(msg, word, NatToDecimal(n));
      var k := FirstKeyContaining(TranslationKeys, t2, NatToDecimal(n), Trim(msg));
      (k.Some? ==> TranslateError(error, t, t2) == t2(TranslationKeys[k.value], NatToDecimal(n))) &&
      (k.None? ==> TranslateError(error, t, t2) == Or(Some(t(error)), error))
  {
    ParseTaggedRoundTrip(msg, word, n);
  }

  lemma NoParenSuffix(s: string, j: nat)
    requires '(' !in s && j <= |s|
    ensures '(' !in s[j..]
  {
    assert forall k :: 0 <= k < |s[j..]| ==> s[j..][k] == s[j + k];
  }

  /** Without a parenthesis no end of the lazy group lets the tag match. */
  lemma {:induction false} NoParenNoEnd(error: string, word: string, i: nat, j: nat)
    requires '(' !in error
    requires i < j <= |error|
    ensures LazyEnd(error, i, j, word).None?
    decreases |error| - j
  {
    NoParenTagAt(error, word, j);
    if j < |error| {
      NoParenNoEnd(error, word, i, j + 1);
      LazyEndStep(error, word, i, j);
    } else {
      LazyEndLast(error, word, i, j);
    }
  }

  lemma NoParenTagAt(error: string, word: string, j: nat)
    requires '(' !in error && j <= |error|
    ensures RowTag(error[j..], word).None?
  {
    NoParenSuffix(error, j);
    NoParenNoTag(error[j..], word);
  }

  /** The lazy group that cannot stop at `j` goes on to `j + 1`. */
  lemma LazyEndStep(s: string, word: string, i: nat, j: nat)
    requires i < j < |s| && RowTag(s[j..], word).None?
    ensures LazyEnd(s, i, j, word).None? <==> (IsLineTerminator(s[j - 1]) || LazyEnd(s, i, j + 1, word).None?)
  {
  }

  /** The lazy group that cannot stop at the end of the text fails. */
  lemma LazyEndLast(s: string, word: string, i: nat, j: nat)
    requires i < j == |s| && RowTag(s[j..], word).None?
    ensures LazyEnd(s, i, j, word).None?
  {
  }

  /** Without a parenthesis the pattern of any label finds nothing. */
  lemma {:induction false} NoParenNoMatch(error: string, word: string, i: nat)
    requires '(' !in error
    ensures MatchFrom(error, i, word).None?
    decreases |error| - i
  {
    if i < |error| {
      NoParenNoEnd(error, word, i, i + 1);
      NoParenNoMatch(error, word, i + 1);
    }
  }

  /** An error without a parenthesis is never parsed: it is looked up whole. */
  lemma {:induction false} UntaggedLookedUpWhole(error: string, t: string -> string, t2: (string, string) -> string)
    requires '(' !in error
    ensures TranslateError(error, t, t2) == Or(Some(t(error)), error)
  {
    NoParenNoMatch(error, Satir, 0);
    NoParenNoMatch(error, RowLabel, 0);
    NoParenNoMatch(error, Ligne, 0);
  }
}
