/**
  * The bank-statement CSV pipeline (`parseCsv`, `headersSignature`,
  * `detectMapping`, `normalizeRows`, `applyRules`): a CSV text becomes header
  * names and one record per non-blank line, column names are guessed from the
  * headers, each record becomes a transaction with a signed amount, and
  * category rules label the transactions.
  */
module Parser {
  import opened Wrappers
  import opened Strings
  import opened Numbers
  import opened Sorting
  import opened Calendar

  // ----- parseCsv -----

  /** Drop one carriage return at the end of a line. */
  function DropCr(s: string): (r: string)
    ensures r == s || r + "\r" == s
  {
    if |s| > 0 && s[|s| - 1] == '\r' then s[..|s| - 1] else s
  }

  /** `text.split(/\r?\n/)`: the pieces between line feeds, each without the carriage return that came before its line feed. */
  function SplitLines(text: string): (lines: seq<string>)
    ensures |lines| == |Split(text, {'\n'})|
  {
    var pieces := Split(text, {'\n'});
    seq(|pieces|, i requires 0 <= i < |pieces| => if i < |pieces| - 1 then DropCr(pieces[i]) else pieces[i])
  }

  /** `lines.filter((l) => l.trim().length > 0)`. */
  function NonBlank(lines: seq<string>): (r: seq<string>)
    ensures |r| <= |lines|
    ensures forall l | l in r :: l in lines && Trim(l) != ""
    ensures forall l | l in lines && Trim(l) != "" :: l in r
  {
    if lines == [] then []
    else (if Trim(lines[0]) != "" then [lines[0]] else []) + NonBlank(lines[1..])
  }

  /** `cols[idx]?.trim() ?? ""`. */
  function Cell(cols: seq<string>, idx: int): string {
    if 0 <= idx < |cols| then Trim(cols[idx]) else ""
  }

  /** The record `headers.forEach((h, idx) => record[h] = ...)` builds: a later duplicate header overwrites an earlier one. */
  function Record(headers: seq<string>, cols: seq<string>): (r: map<string, string>)
    ensures r.Keys == set h | h in headers
    decreases |headers|
  {
    if headers == [] then map[]
    else
      var init := headers[..|headers| - 1];
      assert forall h :: h in headers <==> h in init || h == headers[|headers| - 1] by {
        assert headers == init + [headers[|headers| - 1]];
      }
      Record(init, cols)[headers[|headers| - 1] := Cell(cols, |headers| - 1)]
  }

  /** Each header holds the cell of its last column. */
  lemma {:induction false} RecordLast(headers: seq<string>, cols: seq<string>, i: int)
    requires 0 <= i < |headers|
    requires forall j | i < j < |headers| :: headers[j] != headers[i]
    ensures headers[i] in Record(headers, cols) && Record(headers, cols)[headers[i]] == Cell(cols, i)
    decreases |headers|
  {
    if i < |headers| - 1 {
      var init := headers[..|headers| - 1];
      RecordLast(init, cols, i);
    }
  }

  /** The callback of `lines.slice(1).map(...)`: split a line at commas and fill the record header by header. */
  method BuildRecord(headers: seq<string>, line: string) returns (record: map<string, string>)
    ensures record == Record(headers, Split(line, {','}))
  {
    var cols := Split(line, {','});
    record := map[];
    for idx := 0 to |headers|
      invariant record == Record(headers[..idx], cols)
    {
      assert headers[..idx + 1][..idx] == headers[..idx];
      record := record[headers[idx] := Cell(cols, idx)];
    }
    assert headers[..|headers|] == headers;
  }

  datatype Table = Table(headers: seq<string>, rows: seq<map<string, string>>)

  /** `lines[0].split(",").map((h) => h.trim())`. */
  function HeaderNames(line: string): (headers: seq<string>)
    ensures |headers| == |Split(line, {','})| >= 1
    ensures forall i | 0 <= i < |headers| :: headers[i] == Trim(Split(line, {','})[i])
  {
    var cells := Split(line, {','});
    seq(|cells|, i requires 0 <= i < |cells| => Trim(cells[i]))
  }

  /** One record per line. */
  function Rows(headers: seq<string>, lines: seq<string>): (rows: seq<map<string, string>>)
    ensures |rows| == |lines|
    ensures forall k | 0 <= k < |lines| :: rows[k] == Record(headers, Split(lines[k], {','}))
  {
    if lines == [] then [] else [Record(headers, Split(lines[0], {','}))] + Rows(headers, lines[1..])
  }

  /** `parseCsv`: headers from the first non-blank line, one record per later non-blank line. */
  function ParseCsv(text: string): Table {
    var lines := NonBlank(SplitLines(text));
    if lines == [] then Table([], [])
    else
      var headers := HeaderNames(lines[0]);
      Table(headers, Rows(headers, lines[1..]))
  }

  /**
    * The shape of every parse: no headers exactly when there is no non-blank
    * line, then no rows either; otherwise one row per further non-blank line,
    * keyed by exactly the headers, which are trimmed and comma-free.
    */
  lemma ParseCsvShape(text: string)
    ensures var t := ParseCsv(text);
      var lines := NonBlank(SplitLines(text));
      (t.headers == [] <==> lines == [])
      && (lines != [] ==> |t.rows| == |lines| - 1)
      && (lines == [] ==> t.rows == [])
      && (forall k | 0 <= k < |t.rows| :: t.rows[k].Keys == set h | h in t.headers)
      && (forall i | 0 <= i < |t.headers| :: Trim(t.headers[i]) == t.headers[i] && NoneIn(t.headers[i], {','}))
  {
    var t := ParseCsv(text);
    var lines := NonBlank(SplitLines(text));
    if lines != [] {
      var cells := Split(lines[0], {','});
      forall i | 0 <= i < |t.headers|
        ensures Trim(t.headers[i]) == t.headers[i] && NoneIn(t.headers[i], {','})
      {
        TrimIdempotent(cells[i]);
        TrimSubstring(cells[i], {','});
      }
    }
  }

  /** Trimming keeps a character-free string character-free. */
  lemma TrimSubstring(s: string, cs: set<char>)
    requires NoneIn(s, cs)
    ensures NoneIn(Trim(s), cs)
  {
    var a := TrimStart(s);
    var b := TrimEnd(a);
    forall i | 0 <= i < |b| ensures b[i] !in cs {
      assert b[i] == a[i] == s[|s| - |a| + i];
    }
  }

  // ----- the CSV a table is written as -----

  /** A cell or header that survives a parse unchanged: no comma, no line break, no surrounding white space. */
  predicate CleanCell(c: string) {
    NoneIn(c, {',', '\n', '\r'}) && Trim(c) == c
  }

  /** A table a parse can reproduce: distinct clean headers, rows as wide as the header, each line starting with a non-empty cell. */
  predicate WellFormed(headers: seq<string>, body: seq<seq<string>>) {
    |headers| >= 1 && headers[0] != ""
    && (forall i | 0 <= i < |headers| :: CleanCell(headers[i]))
    && (forall i, j | 0 <= i < j < |headers| :: headers[i] != headers[j])
    && forall k | 0 <= k < |body| ::
         |body[k]| == |headers| && body[k][0] != "" && forall i | 0 <= i < |headers| :: CleanCell(body[k][i])
  }

  /** The lines of the CSV text of a table: the header line, then one line per row. */
  function TableLines(headers: seq<string>, body: seq<seq<string>>): (lines: seq<string>)
    ensures |lines| == |body| + 1
  {
    [Join(headers, ",")] + seq(|body|, k requires 0 <= k < |body| => Join(body[k], ","))
  }

  /** The CSV text of a table: its lines joined with line feeds. */
  function Render(headers: seq<string>, body: seq<seq<string>>): string {
    Join(TableLines(headers, body), "\n")
  }

  /** A line of clean cells starting with a non-empty one has no line break and is not blank. */
  lemma CleanLine(cells: seq<string>)
    requires |cells| >= 1 && cells[0] != ""
    requires forall i | 0 <= i < |cells| :: CleanCell(cells[i])
    ensures var line := Join(cells, ",");
      NoneIn(line, {'\n', '\r'}) && Trim(line) != "" && DropCr(line) == line && Split(line, {','}) == cells
  {
    var line := Join(cells, ",");
    forall i | 0 <= i < |cells| ensures NoneIn(cells[i], {'\n', '\r'}) && NoneIn(cells[i], {','}) {
      assert CleanCell(cells[i]);
    }
    JoinNoneIn(cells, ",", {'\n', '\r'});
    JoinHead(cells, ",");
    assert line[0] == cells[0][0];
    assert !IsSpace(cells[0][0]) by {
      assert Trim(cells[0]) == cells[0];
    }
    LeadingNonSpace(line);
    JoinSplit(cells, ',');
  }

  /** Blank-free lines pass the blank-line filter untouched. */
  lemma {:induction false} NonBlankKeeps(lines: seq<string>)
    requires forall i | 0 <= i < |lines| :: Trim(lines[i]) != ""
    ensures NonBlank(lines) == lines
  {
    if lines != [] {
      NonBlankKeeps(lines[1..]);
      assert lines == [lines[0]] + lines[1..];
    }
  }

  lemma TableLinesAt(headers: seq<string>, body: seq<seq<string>>, i: int)
    requires 0 <= i <= |body|
    ensures TableLines(headers, body)[i] == if i == 0 then Join(headers, ",") else Join(body[i - 1], ",")
  {
  }

  /** No line of a well-formed table has a line break or is blank. */
  lemma TableLinesClean(headers: seq<string>, body: seq<seq<string>>)
    requires WellFormed(headers, body)
    ensures var lines := TableLines(headers, body);
      forall i | 0 <= i < |lines| :: NoneIn(lines[i], {'\n', '\r'}) && Trim(lines[i]) != "" && DropCr(lines[i]) == lines[i]
  {
    var lines := TableLines(headers, body);
    forall i | 0 <= i < |lines| ensures NoneIn(lines[i], {'\n', '\r'}) && Trim(lines[i]) != "" && DropCr(lines[i]) == lines[i] {
      TableLinesAt(headers, body, i);
      if i == 0 {
        CleanLine(headers);
      } else {
        CleanLine(body[i - 1]);
      }
    }
  }

  /** The text of a well-formed table splits back into its lines, none of them blank. */
  lemma RenderLines(headers: seq<string>, body: seq<seq<string>>)
    requires WellFormed(headers, body)
    ensures NonBlank(SplitLines(Render(headers, body))) == TableLines(headers, body)
  {
    var lines := TableLines(headers, body);
    TableLinesClean(headers, body);
    forall i | 0 <= i < |lines| ensures NoneIn(lines[i], {'\n'}) && DropCr(lines[i]) == lines[i] {
      assert NoneIn(lines[i], {'\n', '\r'});
    }
    SplitJoinedLines(lines);
    NonBlankKeeps(lines);
  }

  /** Lines without line feeds or a trailing carriage return split back out of their join. */
  lemma SplitJoinedLines(lines: seq<string>)
    requires |lines| >= 1
    requires forall i | 0 <= i < |lines| :: NoneIn(lines[i], {'\n'}) && DropCr(lines[i]) == lines[i]
    ensures SplitLines(Join(lines, "\n")) == lines
  {
    assert "\n" == ['\n'];
    JoinSplit(lines, '\n');
    var split := SplitLines(Join(lines, "\n"));
    forall i | 0 <= i < |lines| ensures split[i] == lines[i] {
    }
  }

  /** A row of clean cells reads back cell by cell under distinct headers. */
  lemma RowBack(headers: seq<string>, cells: seq<string>, i: int)
    requires |cells| == |headers| >= 1 && cells[0] != "" && 0 <= i < |headers|
    requires forall j | 0 <= j < |cells| :: CleanCell(cells[j])
    requires forall a, b | 0 <= a < b < |headers| :: headers[a] != headers[b]
    ensures var r := Record(headers, Split(Join(cells, ","), {','}));
      headers[i] in r && r[headers[i]] == cells[i]
  {
    CleanLine(cells);
    RecordLast(headers, cells, i);
    assert CleanCell(cells[i]);
  }

  /** The `k`th row parsed from the lines of a well-formed table holds the `k`th row's cells. */
  lemma ParsedRow(headers: seq<string>, body: seq<seq<string>>, k: int, i: int)
    requires WellFormed(headers, body) && 0 <= k < |body| && 0 <= i < |headers|
    ensures var rows := Rows(headers, TableLines(headers, body)[1..]);
      k < |rows| && headers[i] in rows[k] && rows[k][headers[i]] == body[k][i]
  {
    var lines := TableLines(headers, body);
    TableLinesAt(headers, body, k + 1);
    assert lines[1..][k] == lines[k + 1];
    RowBack(headers, body[k], i);
  }

  /** A parse is determined by the non-blank lines of the text. */
  lemma ParseFromLines(text: string, lines: seq<string>)
    requires NonBlank(SplitLines(text)) == lines && lines != []
    ensures ParseCsv(text) == Table(HeaderNames(lines[0]), Rows(HeaderNames(lines[0]), lines[1..]))
  {
  }

  /** Writing a well-formed table as CSV and parsing it gives back its headers and its rows. */
  lemma ParseRender(headers: seq<string>, body: seq<seq<string>>)
    requires WellFormed(headers, body)
    ensures var t := ParseCsv(Render(headers, body));
      t.headers == headers && |t.rows| == |body|
      && forall k, i | 0 <= k < |body| && 0 <= i < |headers| ::
           headers[i] in t.rows[k] && t.rows[k][headers[i]] == body[k][i]
  {
    var lines := TableLines(headers, body);
    RenderLines(headers, body);
    ParseFromLines(Render(headers, body), lines);
    ParsedHeaders(headers, body);
    ParsedRows(headers, body);
  }

  lemma ParsedHeaders(headers: seq<string>, body: seq<seq<string>>)
    requires WellFormed(headers, body)
    ensures HeaderNames(TableLines(headers, body)[0]) == headers
  {
    CleanLine(headers);
    TableLinesAt(headers, body, 0);
    forall i | 0 <= i < |headers| ensures Trim(headers[i]) == headers[i] {
      assert CleanCell(headers[i]);
    }
  }

  lemma ParsedRows(headers: seq<string>, body: seq<seq<string>>)
    requires WellFormed(headers, body)
    ensures var rows := Rows(headers, TableLines(headers, body)[1..]);
      |rows| == |body|
      && forall k, i | 0 <= k < |body| && 0 <= i < |headers| :: headers[i] in rows[k] && rows[k][headers[i]] == body[k][i]
  {
    forall k, i | 0 <= k < |body| && 0 <= i < |headers|
      ensures var rows := Rows(headers, TableLines(headers, body)[1..]); headers[i] in rows[k] && rows[k][headers[i]] == body[k][i]
    {
      ParsedRow(headers, body, k, i);
    }
  }

  // ----- cleanHeader, headersSignature, detectMapping -----

  /** `cleanHeader`: trimmed and lower-cased. */
  function CleanHeader(h: string): string {
    Lower(Trim(h))
  }

  /** Cleaning a clean header changes nothing. */
  lemma CleanHeaderIdempotent(h: string)
    ensures CleanHeader(CleanHeader(h)) == CleanHeader(h)
  {
    TrimLowerCommute(Trim(h));
    TrimIdempotent(h);
    LowerIdempotent(Trim(h));
  }

  function CleanAll(headers: seq<string>): (r: seq<string>)
    ensures |r| == |headers|
    ensures forall i | 0 <= i < |headers| :: r[i] == CleanHeader(headers[i])
  {
    seq(|headers|, i requires 0 <= i < |headers| => CleanHeader(headers[i]))
  }

  /** `headersSignature`: the digest of the cleaned headers joined with `|`; the MD5 hex digest is the parameter `md5`. */
  function HeadersSignature(headers: seq<string>, md5: string -> string): string {
    md5(Join(CleanAll(headers), "|"))
  }

  /** Header sets that differ only in case and surrounding white space share a signature, and cleaning first changes nothing. */
  lemma SignatureIgnoresCaseAndSpace(a: seq<string>, b: seq<string>, md5: string -> string)
    requires |a| == |b| && forall i | 0 <= i < |a| :: CleanHeader(a[i]) == CleanHeader(b[i])
    ensures HeadersSignature(a, md5) == HeadersSignature(b, md5)
    ensures HeadersSignature(CleanAll(a), md5) == HeadersSignature(a, md5)
  {
    assert CleanAll(a) == CleanAll(b);
    forall i | 0 <= i < |a| ensures CleanAll(CleanAll(a))[i] == CleanAll(a)[i] {
      CleanHeaderIdempotent(a[i]);
    }
    assert CleanAll(CleanAll(a)) == CleanAll(a);
  }

  /** Without `|` in any cleaned header, the digested text determines the cleaned headers, so a digest collision is the only way two different header sets share a signature. */
  lemma SignatureTextInjective(a: seq<string>, b: seq<string>)
    requires |a| >= 1 && |b| >= 1
    requires forall i | 0 <= i < |a| :: NoneIn(CleanHeader(a[i]), {'|'})
    requires forall i | 0 <= i < |b| :: NoneIn(CleanHeader(b[i]), {'|'})
    requires Join(CleanAll(a), "|") == Join(CleanAll(b), "|")
    ensures CleanAll(a) == CleanAll(b)
  {
    JoinSplit(CleanAll(a), '|');
    JoinSplit(CleanAll(b), '|');
  }

  const DateTerms: seq<string> := ["date", "transaction date", "posting date", "value date"]
  const DescriptionTerms: seq<string> := ["description", "details", "narrative", "merchant", "reference"]
  const AmountTerms: seq<string> := ["amount", "amt", "value"]
  const DebitTerms: seq<string> := ["debit", "withdrawal", "debits"]
  const CreditTerms: seq<string> := ["credit", "deposit", "credits"]

  /** `candidates.some((c) => h.includes(c))`. */
  predicate MatchesAny(h: string, candidates: seq<string>) {
    exists c | c in candidates :: Contains(h, c)
  }

  /** The position of the first header that contains a candidate term; `|cleaned|` when none does. */
  function FindIndex(cleaned: seq<string>, candidates: seq<string>): (i: nat)
    ensures i <= |cleaned|
    ensures i < |cleaned| ==> MatchesAny(cleaned[i], candidates)
    ensures forall j | 0 <= j < i :: !MatchesAny(cleaned[j], candidates)
  {
    if cleaned == [] then 0
    else if MatchesAny(cleaned[0], candidates) then 0
    else 1 + FindIndex(cleaned[1..], candidates)
  }

  /** `cleaned.find(...) ?? ""`. */
  function Find(cleaned: seq<string>, candidates: seq<string>): string {
    var i := FindIndex(cleaned, candidates);
    if i < |cleaned| then cleaned[i] else ""
  }

  const Fields: set<string> := {"date", "description", "amount", "debit", "credit"}

  /** The search terms of a field. */
  function Terms(field: string): (terms: seq<string>)
    ensures forall c | c in terms :: c != ""
  {
    match field
    case "date" => DateTerms
    case "description" => DescriptionTerms
    case "amount" => AmountTerms
    case "debit" => DebitTerms
    case _ => CreditTerms
  }

  /** The five guesses `detectMapping` makes from the cleaned headers. */
  function Guesses(headers: seq<string>): (m: map<string, string>)
    ensures m.Keys == Fields
  {
    var cleaned := CleanAll(headers);
    map f | f in Fields :: Find(cleaned, Terms(f))
  }

  /**
    * `detectMapping(headers, saved)`. `saved` is what the stored mapping
    * gives: `None` for no stored mapping, `Some(None)` when its JSON does not
    * parse, `Some(Some(m))` for the fields of the parsed object. Parsed
    * fields override the guesses (`{ ...mapping, ...parsed }`).
    */
  function DetectMapping(headers: seq<string>, saved: Option<Option<map<string, string>>>): map<string, string> {
    var guesses := Guesses(headers);
    match saved
    case Some(Some(parsed)) => guesses + parsed
    case _ => guesses
  }

  /**
    * The guess for a field is "" exactly when no cleaned header contains one
    * of its terms; otherwise it is the first cleaned header that does.
    */
  lemma FindSpec(headers: seq<string>, terms: seq<string>)
    requires forall c | c in terms :: c != ""
    ensures var cleaned := CleanAll(headers);
      var r := Find(cleaned, terms);
      (r == "" <==> forall h | h in cleaned :: !MatchesAny(h, terms))
      && (r != "" ==> exists i | 0 <= i < |cleaned| :: r == cleaned[i] == CleanHeader(headers[i])
                        && MatchesAny(cleaned[i], terms)
                        && forall j | 0 <= j < i :: !MatchesAny(cleaned[j], terms))
  {
    var cleaned := CleanAll(headers);
    var i := FindIndex(cleaned, terms);
    if i < |cleaned| {
      var c :| c in terms && Contains(cleaned[i], c);
      assert cleaned[i] != "";
    } else {
      forall h | h in cleaned ensures !MatchesAny(h, terms) {
        var j :| 0 <= j < |cleaned| && cleaned[j] == h;
      }
    }
  }

  /** Every field is present; a field of the parsed saved mapping wins, any other field keeps its guess. */
  lemma DetectMappingSpec(headers: seq<string>, saved: Option<Option<map<string, string>>>)
    ensures var m := DetectMapping(headers, saved);
      Fields <= m.Keys
      && (forall f | f in Guesses(headers) && !(saved.Some? && saved.value.Some? && f in saved.value.value) ::
            m[f] == Guesses(headers)[f])
      && (saved.Some? && saved.value.Some? ==> forall f | f in saved.value.value :: m[f] == saved.value.value[f])
  {
  }

  /** A "value date" header holds both "date" and "value", a date term and an amount term. */
  lemma ValueDateMatchesBoth()
    ensures MatchesAny("value date", DateTerms) && MatchesAny("value date", AmountTerms)
  {
    var h := "value date";
    assert h[..5] == "value";
    ContainsPrefix(h, 5);
    assert "value" in AmountTerms;
    ContainsAt(h, "date");
    assert OccursAt(h, "date", 6);
    assert "date" in DateTerms;
  }

  /**
    * So a file whose first column is headed `Value Date` has that column
    * guessed as the date column and also as the amount column.
    */
  lemma ValueDateTakenAsAmount(headers: seq<string>)
    requires |headers| >= 1 && CleanHeader(headers[0]) == "value date"
    ensures Guesses(headers)["date"] == "value date" && Guesses(headers)["amount"] == "value date"
  {
    ValueDateMatchesBoth();
    var cleaned := CleanAll(headers);
    assert cleaned[0] == "value date";
    assert FindIndex(cleaned, DateTerms) == 0 && FindIndex(cleaned, AmountTerms) == 0;
    assert Terms("date") == DateTerms && Terms("amount") == AmountTerms;
  }

  // ----- cleanAmount -----

  /** The characters `.` does not match in a regular expression. */
  const LineTerminators: set<char> := {'\n', '\r', '\U{2028}', '\U{2029}'}

  /** `/^\(.*\)$/.test(s)`. */
  predicate Parenthesised(s: string) {
    |s| >= 2 && s[0] == '(' && s[|s| - 1] == ')' && NoneIn(s[1..|s| - 1], LineTerminators)
  }

  /** `val.replace(/[$,]/g, "").trim()`. */
  function Stripped(v: string): string {
    Trim(RemoveChars(v, {'$', ','}))
  }

  /**
    * `cleanAmount(val)`, `None` standing for `undefined`: 0 for a missing or
    * empty value; a parenthesised value is the negated inner number, which
    * may be `NaN`; any other value that does not read as a number is 0.
    */
  function CleanAmount(val: Option<string>): (n: Num)
    ensures val.None? || val == Some("") ==> n == Fin(0.0)
    ensures n.NaN? ==> val.Some? && Parenthesised(Stripped(val.value))
    ensures val.Some? && !Parenthesised(Stripped(val.value)) && ParseNumber(Stripped(val.value)).Fin? ==>
              n == ParseNumber(Stripped(val.value))
    ensures val.Some? && val.value != "" && !Parenthesised(Stripped(val.value)) && ParseNumber(Stripped(val.value)).NaN? ==>
              n == Fin(0.0)
  {
    if val.None? || val.value == "" then Fin(0.0)
    else
      var stripped := Stripped(val.value);
      if Parenthesised(stripped) then Neg(ParseNumber(stripped[1..|stripped| - 1]))
      else
        match ParseNumber(stripped)
        case NaN => Fin(0.0)
        case Fin(v) => Fin(v)
  }

  lemma {:induction false} RemoveKeepsNoneIn(s: string, cs: set<char>, other: set<char>)
    requires NoneIn(s, other)
    ensures NoneIn(RemoveChars(s, cs), other)
  {
    if s != [] {
      RemoveKeepsNoneIn(s[1..], cs, other);
      if s[0] !in cs {
        NoneInConcat([s[0]], RemoveChars(s[1..], cs), other);
      }
    }
  }

  lemma KeptChar(c: char)
    requires c != '$' && c != ','
    ensures RemoveChars([c], {'$', ','}) == [c]
  {
    assert [c][1..] == [];
  }

  lemma RemoveAround(s: string)
    ensures RemoveChars("(" + s + ")", {'$', ','}) == "(" + RemoveChars(s, {'$', ','}) + ")"
  {
    var cs := {'$', ','};
    RemoveConcat("(", s + ")", cs);
    RemoveConcat(s, ")", cs);
    KeptChar('(');
    KeptChar(')');
    assert ("(" + s + ")") == "(" + (s + ")");
  }

  lemma StrippedParentheses(s: string)
    ensures Stripped("(" + s + ")") == "(" + RemoveChars(s, {'$', ','}) + ")"
  {
    var w := "(" + RemoveChars(s, {'$', ','}) + ")";
    RemoveAround(s);
    assert w[0] == '(' && w[|w| - 1] == ')';
    TrimUnchanged(w);
  }

  /** Parentheses around a value on one line negate the number inside, after `$` and `,` are dropped. */
  lemma ParenthesesNegate(s: string)
    requires NoneIn(s, LineTerminators)
    ensures CleanAmount(Some("(" + s + ")")) == Neg(ParseNumber(RemoveChars(s, {'$', ','})))
  {
    var inner := RemoveChars(s, {'$', ','});
    var w := "(" + inner + ")";
    StrippedParentheses(s);
    RemoveKeepsNoneIn(s, {'$', ','}, LineTerminators);
    assert w[1..|w| - 1] == inner;
    assert Parenthesised(w);
  }

  /** A number that neither starts with `(` nor carries `$`, `,` or surrounding white space reads as itself, also behind a dollar sign. */
  lemma PlainNumber(s: string, v: real)
    requires s != [] && s[0] != '(' && !IsSpace(s[0]) && !IsSpace(s[|s| - 1])
    requires NoneIn(s, {'$', ','})
    requires ParseNumber(s) == Fin(v)
    ensures CleanAmount(Some(s)) == Fin(v)
    ensures CleanAmount(Some("$" + s)) == Fin(v)
  {
    var cs := {'$', ','};
    RemoveNone(s, cs);
    RemoveConcat("$", s, cs);
    assert RemoveChars("$", cs) == [] by {
      assert "$"[1..] == [];
    }
    assert RemoveChars("$" + s, cs) == s;
    TrimUnchanged(s);
    assert Stripped(s) == s && Stripped("$" + s) == s;
  }

  /** An integer written out reads back as itself, also behind a dollar sign. */
  lemma CleanAmountInt(i: int)
    ensures CleanAmount(Some(NumberString(Fin(i as real)))) == Fin(i as real)
    ensures CleanAmount(Some("$" + NumberString(Fin(i as real)))) == Fin(i as real)
  {
    PlainString(Fin(i as real));
    IntRoundTrip(i);
    PlainNumber(NumberString(Fin(i as real)), i as real);
  }

  /** A written number has no space at its ends, no `(`, no `$` and no `,`. */
  lemma PlainString(n: Num)
    ensures var s := NumberString(n);
      s != [] && s[0] != '(' && !IsSpace(s[0]) && !IsSpace(s[|s| - 1]) && NoneIn(s, {'$', ','})
  {
    NumberStringPlain(n);
  }

  /** A number without `$`, `,` or line breaks reads as its negation once parenthesised. */
  lemma ParenthesisedNumber(s: string, v: real)
    requires NoneIn(s, LineTerminators) && NoneIn(s, {'$', ','})
    requires ParseNumber(s) == Fin(v)
    ensures CleanAmount(Some("(" + s + ")")) == Fin(-v)
  {
    RemoveNone(s, {'$', ','});
    ParenthesesNegate(s);
  }

  /** An integer in parentheses is its negation. */
  lemma CleanAmountParenthesisedInt(n: nat)
    ensures CleanAmount(Some("(" + NumberString(Fin(n as real)) + ")")) == Fin(-(n as real))
  {
    var s := NumberString(Fin(n as real));
    NumberStringPlain(Fin(n as real));
    IntRoundTrip(n);
    ParenthesisedNumber(s, n as real);
  }

  // ----- normalizeDate -----

  /** The pieces `normalizeDate` reads: split at `/` when there is one, otherwise at `-`. */
  function DateParts(v: string): (parts: seq<string>)
    ensures |parts| >= 1
  {
    if Contains(v, "/") then Split(v, {'/'}) else Split(v, {'-'})
  }

  /**
    * `normalizeDate(val)`: "" for a missing or empty value; a value whose
    * first piece has four characters is cut to its first ten; three pieces
    * are read as day, month and year and written `yyyy-mm-dd`, a two-digit
    * year getting the prefix "20"; anything else is returned as it is.
    */
  function NormalizeDate(val: Option<string>): (r: string)
    ensures val.None? || val == Some("") ==> r == ""
    ensures val.Some? && val.value != "" && |DateParts(val.value)[0]| == 4 ==>
              StartsWith(val.value, r) && |r| == (if |val.value| < 10 then |val.value| else 10)
    ensures val.Some? && val.value != "" && |DateParts(val.value)[0]| != 4 && |DateParts(val.value)| != 3 ==>
              r == val.value
  {
    if val.None? || val.value == "" then ""
    else
      var v := val.value;
      var parts := DateParts(v);
      if |parts[0]| == 4 then Take(v, 10)
      else if |parts| == 3 then
        var y := parts[2];
        var yyyy := if |y| == 2 then "20" + y else y;
        PadStart(yyyy, 4, '0') + "-" + PadStart(parts[1], 2, '0') + "-" + PadStart(parts[0], 2, '0')
      else v
  }

  lemma SplitThree(d: string, m: string, y: string, sep: char)
    requires NoneIn(d, {sep}) && NoneIn(m, {sep}) && NoneIn(y, {sep})
    ensures Split(d + [sep] + m + [sep] + y, {sep}) == [d, m, y]
  {
    SplitNone(y, {sep});
    SplitAt(m, sep, y, {sep});
    assert d + [sep] + m + [sep] + y == d + [sep] + (m + [sep] + y);
    SplitAt(d, sep, m + [sep] + y, {sep});
  }

  /**
    * Day, month and year separated by `/` or `-` become year, month and day
    * separated by `-`, each padded with zeros and a two-digit year put in the
    * 2000s, as long as the day is not four characters long.
    */
  lemma NormalizeDayFirst(d: string, m: string, y: string, sep: char)
    requires sep == '/' || sep == '-'
    requires NoneIn(d, {'/', '-'}) && NoneIn(m, {'/', '-'}) && NoneIn(y, {'/', '-'})
    requires |d| != 4
    ensures NormalizeDate(Some(d + [sep] + m + [sep] + y)) ==
      PadStart(if |y| == 2 then "20" + y else y, 4, '0') + "-" + PadStart(m, 2, '0') + "-" + PadStart(d, 2, '0')
  {
    var v := d + [sep] + m + [sep] + y;
    assert v[|d|] == sep;
    SplitThree(d, m, y, sep);
    if sep == '/' {
      ContainsChar(v, |d|);
      assert DateParts(v) == [d, m, y];
    } else {
      NoneInConcat(d, [sep], {'/'});
      NoneInConcat(d + [sep], m, {'/'});
      NoneInConcat(d + [sep] + m, [sep], {'/'});
      NoneInConcat(d + [sep] + m + [sep], y, {'/'});
      NotContainsChar(v, '/');
      assert DateParts(v) == [d, m, y];
    }
  }

  /** A calendar date written day first, with `/` or `-`, is normalised to its ISO string. */
  lemma DayFirstToIso(date: Date, sep: char)
    requires Valid(date) && 0 <= date.year <= 9999
    requires sep == '/' || sep == '-'
    ensures NormalizeDate(Some(Digits(date.day, 2) + [sep] + Digits(date.month, 2) + [sep] + Digits(date.year, 4))) ==
            IsoDay(date)
  {
    NormalizeDayFirst(Digits(date.day, 2), Digits(date.month, 2), Digits(date.year, 4), sep);
  }

  /** An ISO date string is left as it is. */
  lemma NormalizeIso(date: Date)
    requires Valid(date) && 0 <= date.year <= 9999
    ensures NormalizeDate(Some(IsoDay(date))) == IsoDay(date)
  {
    var y, m, d := Digits(date.year, 4), Digits(date.month, 2), Digits(date.day, 2);
    var s := IsoDay(date);
    assert s == y + "-" + m + "-" + d;
    NoneInConcat(y, "-", {'/'});
    NoneInConcat(y + "-", m, {'/'});
    NoneInConcat(y + "-" + m, "-", {'/'});
    NoneInConcat(y + "-" + m + "-", d, {'/'});
    NotContainsChar(s, '/');
    SplitThree(y, m, d, '-');
    assert DateParts(s) == [y, m, d];
  }

  // ----- normalizeRows -----

  datatype Direction = Credit | Debit

  /**
    * A bank transaction. `normalizeRows` sets the first six fields; the
    * others stay `None` (`undefined`) until `applyRules` or the save step
    * fills them.
    */
  datatype Txn = Txn(
    dateISO: string, description: string, signedAmount: Num, direction: Direction,
    sourceKey: string, dedupeKey: Option<string>,
    categoryKey: Option<string>, profileKey: Option<string>,
    confidence: Option<real>, matchedRule: Option<string>, importBatchId: Option<string>)

  /** `mapping.field` used as a property name: an absent field is `undefined`, which names the property "undefined". */
  function Column(mapping: map<string, string>, field: string): string {
    if field in mapping then mapping[field] else "undefined"
  }

  /** `r[mapping.field]`: `None` when the record has no such key. */
  function Lookup(r: map<string, string>, mapping: map<string, string>, field: string): Option<string> {
    var key := Column(mapping, field);
    if key in r then Some(r[key]) else None
  }

  /** `mapping.field` is truthy: present and not "". */
  predicate Mapped(mapping: map<string, string>, field: string) {
    field in mapping && mapping[field] != ""
  }

  /** `mapping.field ? cleanAmount(r[mapping.field]) : 0`. */
  function MappedAmount(r: map<string, string>, mapping: map<string, string>, field: string): Num {
    if Mapped(mapping, field) then CleanAmount(Lookup(r, mapping, field)) else Fin(0.0)
  }

  /** The key `${date}|${signedAmount}|${description}|${sourceKey}`. */
  function DedupeKey(date: string, amount: Num, description: string, sourceKey: string): string {
    date + "|" + NumberString(amount) + "|" + description + "|" + sourceKey
  }

  /**
    * The callback of `normalizeRows`: the signed amount is the amount column
    * when one is mapped, otherwise credit minus debit; the direction is
    * credit exactly when the signed amount is at least 0 (so a `NaN` amount
    * is a debit); the dedupe key is built from the row's own fields.
    */
  function NormalizeRow(r: map<string, string>, mapping: map<string, string>, sourceKey: string): (t: Txn)
    ensures t.direction == Credit <==> NonNegative(t.signedAmount)
    ensures t.sourceKey == sourceKey
    ensures t.dedupeKey == Some(DedupeKey(t.dateISO, t.signedAmount, t.description, sourceKey))
    ensures t.dateISO == NormalizeDate(Lookup(r, mapping, "date"))
    ensures t.description == Lookup(r, mapping, "description").GetOr("")
    ensures Mapped(mapping, "amount") ==> t.signedAmount == CleanAmount(Lookup(r, mapping, "amount"))
    ensures !Mapped(mapping, "amount") ==>
              t.signedAmount == Sub(MappedAmount(r, mapping, "credit"), MappedAmount(r, mapping, "debit"))
    ensures t.categoryKey.None? && t.profileKey.None? && t.confidence.None? && t.matchedRule.None? && t.importBatchId.None?
  {
    var date := NormalizeDate(Lookup(r, mapping, "date"));
    var description := Lookup(r, mapping, "description").GetOr("");
    var amountVal := MappedAmount(r, mapping, "amount");
    var debitVal := MappedAmount(r, mapping, "debit");
    var creditVal := MappedAmount(r, mapping, "credit");
    var signed := if Mapped(mapping, "amount") then amountVal else Sub(creditVal, debitVal);
    var direction := if NonNegative(signed) then Credit else Debit;
    Txn(date, description, signed, direction, sourceKey, Some(DedupeKey(date, signed, description, sourceKey)),
        None, None, None, None, None)
  }

  /** `normalizeRows`: one transaction per record, in order. */
  function NormalizeRows(rows: seq<map<string, string>>, mapping: map<string, string>, sourceKey: string): (ts: seq<Txn>)
    ensures |ts| == |rows|
    ensures forall i | 0 <= i < |rows| :: ts[i] == NormalizeRow(rows[i], mapping, sourceKey)
  {
    seq(|rows|, i requires 0 <= i < |rows| => NormalizeRow(rows[i], mapping, sourceKey))
  }

  /** With no `|` in the date, the description or the source, the dedupe key splits back into its four parts. */
  lemma DedupeKeyParts(date: string, amount: Num, description: string, sourceKey: string)
    requires NoneIn(date, {'|'}) && NoneIn(description, {'|'}) && NoneIn(sourceKey, {'|'})
    ensures Split(DedupeKey(date, amount, description, sourceKey), {'|'}) == [date, NumberString(amount), description, sourceKey]
  {
    var a := NumberString(amount);
    NumberStringPlain(amount);
    assert NoneIn(a, {'|'});
    var t2 := description + ['|'] + sourceKey;
    var t1 := a + ['|'] + t2;
    SplitNone(sourceKey, {'|'});
    SplitAt(description, '|', sourceKey, {'|'});
    SplitAt(a, '|', t2, {'|'});
    SplitAt(date, '|', t1, {'|'});
    DedupeKeyNested(date, a, description, sourceKey);
    assert [date] + ([a] + ([description] + [sourceKey])) == [date, a, description, sourceKey];
  }

  /** The key is its four parts joined by `|`. */
  lemma DedupeKeyNested(date: string, a: string, description: string, sourceKey: string)
    ensures date + "|" + a + "|" + description + "|" + sourceKey
         == date + ['|'] + (a + ['|'] + (description + ['|'] + sourceKey))
  {
    assert "|" == ['|'];
  }

  /** So two such rows share a dedupe key only when they agree on date, amount string, description and source. */
  lemma DedupeKeyInjective(d1: string, a1: Num, s1: string, k1: string, d2: string, a2: Num, s2: string, k2: string)
    requires NoneIn(d1, {'|'}) && NoneIn(s1, {'|'}) && NoneIn(k1, {'|'})
    requires NoneIn(d2, {'|'}) && NoneIn(s2, {'|'}) && NoneIn(k2, {'|'})
    requires DedupeKey(d1, a1, s1, k1) == DedupeKey(d2, a2, s2, k2)
    ensures d1 == d2 && NumberString(a1) == NumberString(a2) && s1 == s2 && k1 == k2
  {
    DedupeKeyParts(d1, a1, s1, k1);
    DedupeKeyParts(d2, a2, s2, k2);
  }

  // ----- header case: as written and corrected -----

  /** A header that cleans to something non-empty is itself non-empty. */
  lemma CleanNonEmpty(h: string)
    requires CleanHeader(h) != ""
    ensures h != ""
  {
  }

  /** A guess for a field, when there is one, is the cleaned form of a header. */
  lemma GuessIsCleaned(headers: seq<string>, f: string)
    requires f in Fields
    ensures var g := Guesses(headers)[f];
      g == "" || exists i | 0 <= i < |headers| :: g == CleanHeader(headers[i])
  {
    var cleaned := CleanAll(headers);
    var i := FindIndex(cleaned, Terms(f));
    if i < |cleaned| {
      assert Guesses(headers)[f] == cleaned[i] == CleanHeader(headers[i]);
    }
  }

  /** A guessed column of such a row is not among its keys. */
  lemma GuessNotFound(headers: seq<string>, row: map<string, string>, f: string)
    requires row.Keys == set h | h in headers
    requires forall h | h in headers :: CleanHeader(h) !in headers
    requires f in Fields
    ensures Lookup(row, DetectMapping(headers, None), f).None? || !Mapped(DetectMapping(headers, None), f)
  {
    var m := DetectMapping(headers, None);
    GuessIsCleaned(headers, f);
    if Mapped(m, f) {
      var i :| 0 <= i < |headers| && m[f] == CleanHeader(headers[i]);
      assert headers[i] in headers;
    }
  }

  /** A row none of whose columns is found reads as an undated, undescribed transaction of 0. */
  lemma NothingFound(row: map<string, string>, m: map<string, string>, sourceKey: string)
    requires forall f | f in Fields :: Lookup(row, m, f).None? || !Mapped(m, f)
    requires Lookup(row, m, "date").None? && Lookup(row, m, "description").None?
    ensures var n := NormalizeRow(row, m, sourceKey);
      n.dateISO == "" && n.description == "" && n.signedAmount == Fin(0.0) && n.direction == Credit
  {
    assert "amount" in Fields && "credit" in Fields && "debit" in Fields;
  }

  /** The record of a row whose cleaned headers are none of its headers has no guessed column. */
  lemma HeaderCaseLostRow(headers: seq<string>, row: map<string, string>, sourceKey: string)
    requires row.Keys == set h | h in headers
    requires forall h | h in headers :: CleanHeader(h) !in headers
    ensures var n := NormalizeRow(row, DetectMapping(headers, None), sourceKey);
      n.dateISO == "" && n.description == "" && n.signedAmount == Fin(0.0) && n.direction == Credit
  {
    var m := DetectMapping(headers, None);
    forall f | f in Fields ensures Lookup(row, m, f).None? || !Mapped(m, f) {
      GuessNotFound(headers, row, f);
    }
    assert Lookup(row, m, "date").None? && Lookup(row, m, "description").None?;
    NothingFound(row, m, sourceKey);
  }

  /**
    * As written, every guessed column name is a cleaned (lower-cased) header,
    * while the records of `parseCsv` are keyed by the trimmed headers in
    * their own case. When no cleaned header is itself a header (a file with
    * the header line `Date,Description,Amount`, say), no guessed column is
    * found in any record: every transaction gets the date "", the
    * description "" and the amount 0, and so the direction credit.
    */
  lemma HeaderCaseLost(text: string, sourceKey: string, k: int)
    requires 0 <= k < |ParseCsv(text).rows|
    requires forall h | h in ParseCsv(text).headers :: CleanHeader(h) !in ParseCsv(text).headers
    ensures var t := ParseCsv(text);
      var n := NormalizeRow(t.rows[k], DetectMapping(t.headers, None), sourceKey);
      n.dateISO == "" && n.description == "" && n.signedAmount == Fin(0.0) && n.direction == Credit
  {
    var t := ParseCsv(text);
    ParseCsvShape(text);
    HeaderCaseLostRow(t.headers, t.rows[k], sourceKey);
  }

  /** The header at a position, or "" past the end. */
  function Pick(headers: seq<string>, i: nat): string {
    if i < |headers| then headers[i] else ""
  }

  /** The guesses with each cleaned header mapped back to the header it came from. */
  function GuessesFixed(headers: seq<string>): (m: map<string, string>)
    ensures m.Keys == Fields
  {
    var cleaned := CleanAll(headers);
    map f | f in Fields :: Pick(headers, FindIndex(cleaned, Terms(f)))
  }

  /** `detectMapping` returning the matched header as `parseCsv` keys it, which is evidently what it is for. */
  function DetectMappingFixed(headers: seq<string>, saved: Option<Option<map<string, string>>>): (m: map<string, string>)
    ensures Fields <= m.Keys
    ensures forall f | f in Fields && !(saved.Some? && saved.value.Some? && f in saved.value.value) ::
              m[f] == "" || m[f] in headers
  {
    var guesses := GuessesFixed(headers);
    forall f | f in Fields ensures guesses[f] == "" || guesses[f] in headers {
      var i := FindIndex(CleanAll(headers), Terms(f));
      if i < |headers| {
        assert headers[i] in headers;
      }
    }
    match saved
    case Some(Some(parsed)) => guesses + parsed
    case _ => guesses
  }

  /**
    * The corrected guesses make the same choices: a field is set exactly
    * when the written guess sets it, to the header the written guess
    * lower-cases, and the two agree outright when every header is already
    * clean.
    */
  lemma FixedGuessesAgree(headers: seq<string>, f: string)
    requires f in Fields
    ensures Guesses(headers)[f] != "" <==> GuessesFixed(headers)[f] != ""
    ensures Guesses(headers)[f] == CleanHeader(GuessesFixed(headers)[f])
    ensures GuessesFixed(headers)[f] == "" || GuessesFixed(headers)[f] in headers
    ensures (forall h | h in headers :: CleanHeader(h) == h) ==> Guesses(headers)[f] == GuessesFixed(headers)[f]
  {
    var cleaned := CleanAll(headers);
    var terms := Terms(f);
    var i := FindIndex(cleaned, terms);
    assert Guesses(headers)[f] == Find(cleaned, terms);
    assert GuessesFixed(headers)[f] == Pick(headers, i);
    if i < |cleaned| {
      var c :| c in terms && Contains(cleaned[i], c);
      assert c != "";
      assert cleaned[i] != "";
      CleanNonEmpty(headers[i]);
      assert headers[i] in headers;
    } else {
      assert CleanHeader("") == "" by {
        assert Trim("") == "";
      }
    }
  }

  /** The corrected detection sets the same fields as the written one. */
  lemma MappedAgree(headers: seq<string>, f: string)
    requires f in Fields
    ensures Mapped(DetectMapping(headers, None), f) == Mapped(DetectMappingFixed(headers, None), f)
  {
    assert DetectMapping(headers, None) == Guesses(headers);
    assert DetectMappingFixed(headers, None) == GuessesFixed(headers);
    FixedGuessesAgree(headers, f);
  }

  /** With the corrected guesses, every guessed column is a column of every record keyed by the headers. */
  lemma FixedFindsColumnsRow(headers: seq<string>, row: map<string, string>, f: string)
    requires row.Keys == set h | h in headers
    requires f in Fields
    ensures var m := DetectMappingFixed(headers, None);
      Mapped(m, f) ==> m[f] in row && Lookup(row, m, f) == Some(row[m[f]])
  {
    var m := DetectMappingFixed(headers, None);
    assert m == GuessesFixed(headers);
    var i := FindIndex(CleanAll(headers), Terms(f));
    assert m[f] == Pick(headers, i);
    if i < |headers| {
      assert headers[i] in headers;
    }
  }

  /** So on a parsed file every guessed column is found in every record. */
  lemma FixedFindsColumns(text: string, k: int, f: string)
    requires 0 <= k < |ParseCsv(text).rows|
    requires f in Fields
    ensures var t := ParseCsv(text);
      var m := DetectMappingFixed(t.headers, None);
      Mapped(m, f) ==> m[f] in t.rows[k] && Lookup(t.rows[k], m, f) == Some(t.rows[k][m[f]])
  {
    var t := ParseCsv(text);
    ParseCsvShape(text);
    FixedFindsColumnsRow(t.headers, t.rows[k], f);
  }

  /**
    * The round trip of the import: a well-formed table written as CSV,
    * parsed and normalised under a mapping whose date, description and
    * amount fields name the table's columns as parsed gives every row back
    * its date, its description and its signed amount.
    */
  lemma NormalizeRendered(headers: seq<string>, body: seq<seq<string>>, m: map<string, string>, sourceKey: string,
                          k: int, di: int, si: int, ai: int, date: Date, x: int)
    requires WellFormed(headers, body) && 0 <= k < |body|
    requires 0 <= di < |headers| && 0 <= si < |headers| && 0 <= ai < |headers|
    requires "date" in m && m["date"] == headers[di] && "description" in m && m["description"] == headers[si]
    requires "amount" in m && m["amount"] == headers[ai] && headers[ai] != ""
    requires Valid(date) && 0 <= date.year <= 9999
    requires body[k][di] == IsoDay(date) && body[k][ai] == NumberString(Fin(x as real))
    ensures var ts := NormalizeRows(ParseCsv(Render(headers, body)).rows, m, sourceKey);
      |ts| == |body| && ts[k].dateISO == IsoDay(date) && ts[k].description == body[k][si]
      && ts[k].signedAmount == Fin(x as real)
  {
    ParseRender(headers, body);
    var r := ParseCsv(Render(headers, body)).rows[k];
    assert Lookup(r, m, "date") == Some(IsoDay(date));
    assert Lookup(r, m, "description") == Some(body[k][si]);
    assert Lookup(r, m, "amount") == Some(NumberString(Fin(x as real)));
    NormalizeIso(date);
    CleanAmountInt(x);
  }

  /** The header at position `i` is the first whose cleaned text contains one of the terms. */
  predicate FirstMatch(headers: seq<string>, i: int, terms: seq<string>)
    requires 0 <= i < |headers|
  {
    MatchesAny(CleanHeader(headers[i]), terms) && forall j | 0 <= j < i :: !MatchesAny(CleanHeader(headers[j]), terms)
  }

  lemma FieldTerms()
    ensures Terms("date") == DateTerms && Terms("description") == DescriptionTerms && Terms("amount") == AmountTerms
  {
  }

  /** The corrected guess for a field is the first header matching its terms, as parsed. */
  lemma FixedColumn(headers: seq<string>, i: int, f: string)
    requires f in Fields && 0 <= i < |headers| && FirstMatch(headers, i, Terms(f))
    ensures DetectMappingFixed(headers, None)[f] == headers[i] && headers[i] != ""
  {
    var cleaned := CleanAll(headers);
    var fi := FindIndex(cleaned, Terms(f));
    assert fi == i;
    assert DetectMappingFixed(headers, None) == GuessesFixed(headers);
    var c :| c in Terms(f) && Contains(cleaned[i], c);
    assert c != "";
    CleanNonEmpty(headers[i]);
  }

  /**
    * So with the corrected guess the round trip holds for any well-formed
    * table whose date, description and amount columns are the first headers
    * matching their terms, whatever their case: the intended behaviour that
    * `HeaderCaseLost` shows the written guess misses.
    */
  lemma NormalizeRenderedFixed(headers: seq<string>, body: seq<seq<string>>, sourceKey: string,
                               k: int, di: int, si: int, ai: int, date: Date, x: int)
    requires WellFormed(headers, body) && 0 <= k < |body|
    requires 0 <= di < |headers| && 0 <= si < |headers| && 0 <= ai < |headers|
    requires FirstMatch(headers, di, DateTerms) && FirstMatch(headers, si, DescriptionTerms)
    requires FirstMatch(headers, ai, AmountTerms)
    requires Valid(date) && 0 <= date.year <= 9999
    requires body[k][di] == IsoDay(date) && body[k][ai] == NumberString(Fin(x as real))
    ensures var t := ParseCsv(Render(headers, body));
      var ts := NormalizeRows(t.rows, DetectMappingFixed(t.headers, None), sourceKey);
      |ts| == |body| && ts[k].dateISO == IsoDay(date) && ts[k].description == body[k][si]
      && ts[k].signedAmount == Fin(x as real)
  {
    assert ParseCsv(Render(headers, body)).headers == headers by {
      ParseRender(headers, body);
    }
    var m := DetectMappingFixed(headers, None);
    FieldTerms();
    assert m["date"] == headers[di] by {
      FixedColumn(headers, di, "date");
    }
    assert m["description"] == headers[si] by {
      FixedColumn(headers, si, "description");
    }
    assert m["amount"] == headers[ai] && headers[ai] != "" by {
      FixedColumn(headers, ai, "amount");
    }
    NormalizeRendered(headers, body, m, sourceKey, k, di, si, ai, date, x);
  }

  // ----- applyRules -----

  /** `matchType`: "contains", "startsWith", and anything else compares whole strings. */
  datatype MatchType = ContainsMatch | StartsWithMatch | EqualsMatch

  datatype Rule = Rule(pattern: string, matchType: MatchType, categoryKey: string,
                       profileKey: Option<string>, priority: Option<int>, enabled: Option<bool>)

  /** `r.enabled !== false`. */
  predicate Enabled(r: Rule) {
    r.enabled != Some(false)
  }

  /** `r.priority ?? 0`, the sort key. */
  function PriorityKey(r: Rule): real {
    r.priority.GetOr(0) as real
  }

  /** `rules.filter((r) => r.enabled !== false)`. */
  function EnabledRules(rules: seq<Rule>): (r: seq<Rule>)
    ensures forall x | x in r :: x in rules && Enabled(x)
    ensures forall x | x in rules && Enabled(x) :: x in r
  {
    if rules == [] then []
    else (if Enabled(rules[0]) then [rules[0]] else []) + EnabledRules(rules[1..])
  }

  /** The enabled rules, highest priority first and in their own order within a priority. */
  function Ranked(rules: seq<Rule>): (r: seq<Rule>)
    ensures multiset(r) == multiset(EnabledRules(rules))
    ensures SortedDesc(r, PriorityKey)
  {
    SortDesc(EnabledRules(rules), PriorityKey)
  }

  /** Whether a rule matches a lower-cased description, comparing with its lower-cased pattern. */
  predicate Hits(desc: string, rule: Rule) {
    var token := Lower(rule.pattern);
    match rule.matchType
    case ContainsMatch => Contains(desc, token)
    case StartsWithMatch => StartsWith(desc, token)
    case EqualsMatch => desc == token
  }

  /** The position of the first rule that hits; `|rules|` when none does. */
  function HitIndex(desc: string, rules: seq<Rule>): (i: nat)
    ensures i <= |rules|
    ensures i < |rules| ==> Hits(desc, rules[i])
    ensures forall j | 0 <= j < i :: !Hits(desc, rules[j])
  {
    if rules == [] then 0
    else if Hits(desc, rules[0]) then 0
    else 1 + HitIndex(desc, rules[1..])
  }

  /** The rule the loop of `applyRules` stops at. */
  function FirstHit(desc: string, rules: seq<Rule>): Option<Rule> {
    var i := HitIndex(desc, rules);
    if i < |rules| then Some(rules[i]) else None
  }

  /** `o || d` for an optional string: "" and `undefined` both give `d`. */
  function OrElse(o: Option<string>, d: string): (r: string)
    ensures r == d || (o == Some(r) && r != "")
  {
    if o.Some? && o.value != "" then o.value else d
  }

  function Max(a: real, b: real): (m: real)
    ensures m >= a && m >= b && (m == a || m == b)
  {
    if a >= b then a else b
  }

  /** The confidence of a rule that hits: 0.9 from priority 90 up, else 0.75. */
  function RuleConfidence(rule: Rule): real {
    if rule.priority.Some? && rule.priority.value >= 90 then 0.9 else 0.75
  }

  const Uncategorised := "uncategorised"
  const Personal := "personal"
  const ZipCategory := "zip_payments_or_purchases"

  /**
    * The labels `applyRules` gives one transaction, with the rules already
    * ranked: the first rule that hits sets the category and the matched
    * pattern, sets the profile when it has one and sets the confidence by its
    * priority; with no hit the existing labels or their defaults stay, at
    * confidence 0.2. Then "uber" in the description forces the profile and
    * "zip" the category, each raising the confidence to at least 0.75.
    * Every other field is kept.
    */
  function Classify(t: Txn, ranked: seq<Rule>): (r: Txn)
    ensures r.(categoryKey := t.categoryKey, profileKey := t.profileKey, confidence := t.confidence, matchedRule := t.matchedRule) == t
    ensures r.categoryKey.Some? && r.profileKey.Some? && r.confidence.Some? && r.matchedRule.Some?
    ensures r.confidence.value in {0.2, 0.75, 0.9}
    ensures Contains(Lower(t.description), "uber") ==> r.profileKey == Some("uber") && r.confidence.value >= 0.75
    ensures Contains(Lower(t.description), "zip") ==> r.categoryKey == Some(ZipCategory) && r.confidence.value >= 0.75
  {
    var desc := Lower(t.description);
    var category0 := OrElse(t.categoryKey, Uncategorised);
    var profile0 := OrElse(t.profileKey, Personal);
    var hit := FirstHit(desc, ranked);
    var category1 := if hit.Some? then hit.value.categoryKey else category0;
    var profile1 := if hit.Some? then OrElse(hit.value.profileKey, profile0) else profile0;
    var conf1 := if hit.Some? then RuleConfidence(hit.value) else 0.2;
    var matched := if hit.Some? then hit.value.pattern else "";
    var uber := Contains(desc, "uber");
    var profile2 := if uber then "uber" else profile1;
    var conf2 := if uber then Max(conf1, 0.75) else conf1;
    var zip := Contains(desc, "zip");
    var category3 := if zip then ZipCategory else category1;
    var conf3 := if zip then Max(conf2, 0.75) else conf2;
    t.(categoryKey := Some(category3), profileKey := Some(profile2), confidence := Some(conf3), matchedRule := Some(matched))
  }

  /** The loop of `applyRules` for one transaction: stop at the first rule that hits, then apply the two overrides. */
  method Categorise(t: Txn, sorted: seq<Rule>) returns (r: Txn)
    ensures r == Classify(t, sorted)
  {
    var categoryKey := OrElse(t.categoryKey, Uncategorised);
    var profileKey := OrElse(t.profileKey, Personal);
    var confidence := 0.2;
    var matchedRule := "";
    var desc := Lower(t.description);
    var k := 0;
    while k < |sorted|
      invariant 0 <= k <= |sorted|
      invariant forall j | 0 <= j < k :: !Hits(desc, sorted[j])
      invariant categoryKey == OrElse(t.categoryKey, Uncategorised) && profileKey == OrElse(t.profileKey, Personal)
      invariant confidence == 0.2 && matchedRule == ""
    {
      var rule := sorted[k];
      var token := Lower(rule.pattern);
      var hit := match rule.matchType
        case ContainsMatch => Contains(desc, token)
        case StartsWithMatch => StartsWith(desc, token)
        case EqualsMatch => desc == token;
      if hit {
        categoryKey := rule.categoryKey;
        profileKey := OrElse(rule.profileKey, profileKey);
        confidence := RuleConfidence(rule);
        matchedRule := rule.pattern;
        assert HitIndex(desc, sorted) == k;
        break;
      }
      k := k + 1;
    }
    if Contains(desc, "uber") {
      profileKey := "uber";
      confidence := Max(confidence, 0.75);
    }
    if Contains(desc, "zip") {
      categoryKey := ZipCategory;
      confidence := Max(confidence, 0.75);
    }
    r := t.(categoryKey := Some(categoryKey), profileKey := Some(profileKey), confidence := Some(confidence),
            matchedRule := Some(matchedRule));
  }

  /** Every transaction labelled with the ranked rules, in order. */
  function ClassifyAll(txns: seq<Txn>, sorted: seq<Rule>): (r: seq<Txn>)
    ensures |r| == |txns|
    ensures forall i | 0 <= i < |txns| :: r[i] == Classify(txns[i], sorted)
  {
    seq(|txns|, i requires 0 <= i < |txns| => Classify(txns[i], sorted))
  }

  lemma ClassifyAllAppend(txns: seq<Txn>, t: Txn, sorted: seq<Rule>)
    ensures ClassifyAll(txns + [t], sorted) == ClassifyAll(txns, sorted) + [Classify(t, sorted)]
  {
  }

  /** `applyRules`: rank the enabled rules once, then label every transaction, in order. */
  method ApplyRules(txns: seq<Txn>, rules: seq<Rule>) returns (out: seq<Txn>)
    ensures out == ClassifyAll(txns, Ranked(rules))
  {
    var sorted := Ranked(rules);
    out := [];
    for i := 0 to |txns|
      invariant out == ClassifyAll(txns[..i], sorted)
    {
      var t := Categorise(txns[i], sorted);
      ClassifyAllAppend(txns[..i], txns[i], sorted);
      assert txns[..i + 1] == txns[..i] + [txns[i]];
      out := out + [t];
    }
    assert txns[..|txns|] == txns;
  }

  /** The ranked rules are exactly the enabled ones. */
  lemma RankedMembers(rules: seq<Rule>)
    ensures forall x :: x in Ranked(rules) <==> x in rules && Enabled(x)
  {
    forall x ensures x in Ranked(rules) <==> x in EnabledRules(rules) {
      assert x in Ranked(rules) <==> x in multiset(Ranked(rules));
      assert x in EnabledRules(rules) <==> x in multiset(EnabledRules(rules));
    }
  }

  /** In a sequence sorted by descending priority, the first rule that hits has the top priority among the rules that hit. */
  lemma FirstHitTop(desc: string, r: seq<Rule>)
    requires SortedDesc(r, PriorityKey)
    ensures forall j | 0 <= j < |r| && Hits(desc, r[j]) ::
      HitIndex(desc, r) < |r| && PriorityKey(r[j]) <= PriorityKey(r[HitIndex(desc, r)])
  {
  }

  /**
    * The rule that wins is an enabled rule that hits, and no enabled rule
    * that hits has a higher priority; with no winner, no enabled rule hits.
    */
  lemma WinnerHasTopPriority(desc: string, rules: seq<Rule>)
    ensures var w := FirstHit(desc, Ranked(rules));
      (w.None? <==> forall x | x in rules && Enabled(x) :: !Hits(desc, x))
      && (w.Some? ==> w.value in rules && Enabled(w.value) && Hits(desc, w.value)
                      && forall x | x in rules && Enabled(x) && Hits(desc, x) :: PriorityKey(x) <= PriorityKey(w.value))
  {
    var r := Ranked(rules);
    RankedMembers(rules);
    FirstHitTop(desc, r);
    forall x | x in rules && Enabled(x) && Hits(desc, x)
      ensures HitIndex(desc, r) < |r| && PriorityKey(x) <= PriorityKey(r[HitIndex(desc, r)])
    {
      var j :| 0 <= j < |r| && r[j] == x;
    }
    if HitIndex(desc, r) < |r| {
      assert r[HitIndex(desc, r)] in r;
    }
  }

  lemma FirstHitSkip(desc: string, x: Rule, t: seq<Rule>)
    requires !Hits(desc, x)
    ensures FirstHit(desc, [x] + t) == FirstHit(desc, t)
  {
    assert ([x] + t)[1..] == t;
  }

  /** The first rule that hits is also the first that hits among the rules of its priority. */
  lemma {:induction false} FirstHitWithKey(desc: string, s: seq<Rule>)
    requires HitIndex(desc, s) < |s|
    ensures FirstHit(desc, WithKey(s, PriorityKey, PriorityKey(s[HitIndex(desc, s)]))) == Some(s[HitIndex(desc, s)])
  {
    var v := PriorityKey(s[HitIndex(desc, s)]);
    if Hits(desc, s[0]) {
      assert WithKey(s, PriorityKey, v) == [s[0]] + WithKey(s[1..], PriorityKey, v);
    } else {
      assert HitIndex(desc, s) == 1 + HitIndex(desc, s[1..]);
      FirstHitWithKey(desc, s[1..]);
      if PriorityKey(s[0]) == v {
        FirstHitSkip(desc, s[0], WithKey(s[1..], PriorityKey, v));
      } else {
        assert WithKey(s, PriorityKey, v) == WithKey(s[1..], PriorityKey, v);
      }
    }
  }

  /**
    * Ties go to the earlier rule: the winner is the first enabled rule, in the
    * order the rules were given, that hits among those with its priority.
    */
  lemma WinnerFirstAmongEqual(desc: string, rules: seq<Rule>)
    requires FirstHit(desc, Ranked(rules)).Some?
    ensures var w := FirstHit(desc, Ranked(rules)).value;
      FirstHit(desc, WithKey(EnabledRules(rules), PriorityKey, PriorityKey(w))) == Some(w)
  {
    var r := Ranked(rules);
    var w := r[HitIndex(desc, r)];
    FirstHitWithKey(desc, r);
    SortStable(EnabledRules(rules), PriorityKey, PriorityKey(w));
  }

  /** With no rule hitting and neither override, the existing labels or their defaults stay, at confidence 0.2. */
  lemma NoHitKeepsLabels(t: Txn, rules: seq<Rule>)
    requires forall x | x in rules && Enabled(x) :: !Hits(Lower(t.description), x)
    requires !Contains(Lower(t.description), "uber") && !Contains(Lower(t.description), "zip")
    ensures var r := Classify(t, Ranked(rules));
      r.categoryKey == Some(OrElse(t.categoryKey, Uncategorised)) && r.profileKey == Some(OrElse(t.profileKey, Personal))
      && r.confidence == Some(0.2) && r.matchedRule == Some("")
  {
    WinnerHasTopPriority(Lower(t.description), rules);
  }

  /**
    * When some enabled rule hits and neither override applies, the
    * transaction is labelled from an enabled rule that hits and whose
    * priority no other enabled hitting rule exceeds: the rule's category and
    * pattern, the rule's profile unless it has none, and the confidence of
    * the rule's priority.
    */
  lemma WinnerLabels(t: Txn, rules: seq<Rule>)
    requires exists x | x in rules :: Enabled(x) && Hits(Lower(t.description), x)
    requires !Contains(Lower(t.description), "uber") && !Contains(Lower(t.description), "zip")
    ensures var r := Classify(t, Ranked(rules));
      exists w | w in rules && Enabled(w) && Hits(Lower(t.description), w) ::
        (forall x | x in rules && Enabled(x) && Hits(Lower(t.description), x) :: PriorityKey(x) <= PriorityKey(w))
        && r.categoryKey == Some(w.categoryKey) && r.matchedRule == Some(w.pattern)
        && r.profileKey == Some(OrElse(w.profileKey, OrElse(t.profileKey, Personal)))
        && r.confidence == Some(if w.priority.Some? && w.priority.value >= 90 then 0.9 else 0.75)
  {
    WinnerHasTopPriority(Lower(t.description), rules);
    var w := FirstHit(Lower(t.description), Ranked(rules)).value;
    assert w in rules;
  }
}
