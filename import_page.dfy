/**
  * The logic of the statement import page around the CSV pipeline: the gate
  * that asks for a column mapping, the 50-row preview, the save step that
  * drops rows with a repeated dedupe key and fills in defaults, and the rule
  * a user teaches by ticking "Remember".
  */
module ImportPage {
  import opened Wrappers
  import opened Strings
  import opened Numbers
  import opened Sorting
  import opened Parser

  /** `!map.date || !map.description || (!map.amount && !(map.debit && map.credit))`. */
  predicate NeedsMappingWizard(mapping: map<string, string>) {
    !Mapped(mapping, "date") || !Mapped(mapping, "description")
    || (!Mapped(mapping, "amount") && !(Mapped(mapping, "debit") && Mapped(mapping, "credit")))
  }

  /**
    * With the wizard skipped, the date and description columns are mapped
    * and each record's signed amount is read from mapped columns: the amount
    * column when there is one, otherwise credit minus debit, both mapped.
    */
  lemma WizardGate(mapping: map<string, string>, r: map<string, string>, sourceKey: string)
    requires !NeedsMappingWizard(mapping)
    ensures Mapped(mapping, "date") && Mapped(mapping, "description")
    ensures Mapped(mapping, "amount") || (Mapped(mapping, "debit") && Mapped(mapping, "credit"))
    ensures var n := NormalizeRow(r, mapping, sourceKey);
      n.signedAmount ==
        if Mapped(mapping, "amount") then CleanAmount(Lookup(r, mapping, "amount"))
        else Sub(CleanAmount(Lookup(r, mapping, "credit")), CleanAmount(Lookup(r, mapping, "debit")))
    ensures mapping["date"] in r ==> NormalizeRow(r, mapping, sourceKey).dateISO == NormalizeDate(Some(r[mapping["date"]]))
    ensures mapping["description"] in r ==> NormalizeRow(r, mapping, sourceKey).description == r[mapping["description"]]
  {
  }

  /** Correcting the header case does not change whether the wizard opens. */
  lemma WizardUnaffectedByFix(headers: seq<string>)
    ensures NeedsMappingWizard(DetectMapping(headers, None)) == NeedsMappingWizard(DetectMappingFixed(headers, None))
  {
    MappedAgree(headers, "date");
    MappedAgree(headers, "description");
    MappedAgree(headers, "amount");
    MappedAgree(headers, "debit");
    MappedAgree(headers, "credit");
  }

  /** A file whose headers name no date column always opens the wizard. */
  lemma NoDateColumnNeedsWizard(headers: seq<string>)
    requires forall h | h in headers :: !MatchesAny(CleanHeader(h), DateTerms)
    ensures NeedsMappingWizard(DetectMapping(headers, None))
  {
    FindSpec(headers, DateTerms);
    var cleaned := CleanAll(headers);
    forall c | c in cleaned ensures !MatchesAny(c, DateTerms) {
      var i :| 0 <= i < |cleaned| && cleaned[i] == c;
      assert headers[i] in headers;
    }
    assert Terms("date") == DateTerms;
  }

  /** `rows.slice(0, 50)`: the first 50 rows, or all of them when there are fewer. */
  function Preview<T>(rows: seq<T>): (p: seq<T>)
    ensures |p| <= 50
    ensures |p| == (if |rows| < 50 then |rows| else 50)
    ensures p == rows[..|p|]
  {
    if |rows| <= 50 then rows else rows[..50]
  }

  /**
    * The gate and preview of `onFile` once the columns are guessed: when the
    * mapping is complete, normalise, label and cap the rows for the preview;
    * otherwise the wizard opens and the preview is empty.
    */
  method GatePreview(rows: seq<map<string, string>>, m: map<string, string>, sourceKey: string, rules: seq<Rule>)
    returns (needsWizard: bool, preview: seq<Txn>)
    ensures needsWizard == NeedsMappingWizard(m)
    ensures needsWizard ==> preview == []
    ensures !needsWizard ==>
      |preview| == (if |rows| < 50 then |rows| else 50)
      && forall i | 0 <= i < |preview| :: preview[i] == Classify(NormalizeRow(rows[i], m, sourceKey), Ranked(rules))
  {
    needsWizard := NeedsMappingWizard(m);
    if !needsWizard {
      var normalized := NormalizeRows(rows, m, sourceKey);
      var categorised := ApplyRules(normalized, rules);
      preview := Preview(categorised);
    } else {
      preview := [];
    }
  }

  /**
    * The work of `onFile` after the text is read: parse, guess the columns
    * with `detectMapping` as written (no saved mapping), then the gate and
    * the preview. By `Parser.HeaderCaseLost`, a file whose headers are not
    * already clean previews rows with empty fields.
    */
  method OnFile(text: string, sourceKey: string, rules: seq<Rule>) returns (needsWizard: bool, preview: seq<Txn>)
    ensures var t := ParseCsv(text);
      var m := DetectMapping(t.headers, None);
      needsWizard == NeedsMappingWizard(m)
      && (needsWizard ==> preview == [])
      && (!needsWizard ==>
            |preview| == (if |t.rows| < 50 then |t.rows| else 50)
            && forall i | 0 <= i < |preview| :: preview[i] == Classify(NormalizeRow(t.rows[i], m, sourceKey), Ranked(rules)))
  {
    var t := ParseCsv(text);
    var m := DetectMapping(t.headers, None);
    needsWizard, preview := GatePreview(t.rows, m, sourceKey, rules);
  }

  /**
    * `onFile` with the corrected column guess: the same gate (by
    * `WizardUnaffectedByFix`), and every mapped field of a previewed row is
    * read from its column (by `Parser.FixedFindsColumns`).
    */
  method OnFileFixed(text: string, sourceKey: string, rules: seq<Rule>) returns (needsWizard: bool, preview: seq<Txn>)
    ensures var t := ParseCsv(text);
      var m := DetectMappingFixed(t.headers, None);
      needsWizard == NeedsMappingWizard(m)
      && needsWizard == NeedsMappingWizard(DetectMapping(t.headers, None))
      && (needsWizard ==> preview == [])
      && (!needsWizard ==>
            |preview| == (if |t.rows| < 50 then |t.rows| else 50)
            && forall i | 0 <= i < |preview| :: preview[i] == Classify(NormalizeRow(t.rows[i], m, sourceKey), Ranked(rules)))
  {
    var t := ParseCsv(text);
    var m := DetectMappingFixed(t.headers, None);
    WizardUnaffectedByFix(t.headers);
    needsWizard, preview := GatePreview(t.rows, m, sourceKey, rules);
  }

  // ----- saveBatch -----

  /** `t.dedupeKey ?? `${t.dateISO}|${t.signedAmount}|${t.description}|${sourceKey}``. */
  function RowKey(t: Txn, sourceKey: string): string {
    match t.dedupeKey
    case Some(k) => k
    case None => DedupeKey(t.dateISO, t.signedAmount, t.description, sourceKey)
  }

  /** The key of every row, in order. */
  function RowKeys(rows: seq<Txn>, sourceKey: string): (keys: seq<string>)
    ensures |keys| == |rows|
    ensures forall i | 0 <= i < |rows| :: keys[i] == RowKey(rows[i], sourceKey)
  {
    seq(|rows|, i requires 0 <= i < |rows| => RowKey(rows[i], sourceKey))
  }

  /** A JavaScript `Map` from key to value: the keys in insertion order and the current value of each. */
  datatype Unique<V> = Unique(order: seq<string>, latest: map<string, V>)

  /** `unique.set(k, v)`: a new key goes to the end, an existing one keeps its place and takes the new value. */
  function Put<V>(u: Unique<V>, k: string, v: V): Unique<V> {
    Unique(if k in u.latest then u.order else u.order + [k], u.latest[k := v])
  }

  /** The map after `set(keys[i], vals[i])` for every `i` in turn: its keys are listed once each. */
  function Dedup<V>(keys: seq<string>, vals: seq<V>): (u: Unique<V>)
    requires |keys| == |vals|
    ensures forall a, b | 0 <= a < b < |u.order| :: u.order[a] != u.order[b]
    ensures forall k :: k in u.latest <==> k in u.order
    decreases |keys|
  {
    if keys == [] then Unique([], map[])
    else
      var n := |keys| - 1;
      Put(Dedup(keys[..n], vals[..n]), keys[n], vals[n])
  }

  /** The key `k` first appears at position `i`. */
  predicate FirstAt(keys: seq<string>, k: string, i: int) {
    0 <= i < |keys| && keys[i] == k && forall j | 0 <= j < i :: keys[j] != k
  }

  /** The key `k` last appears at position `i`. */
  predicate LastAt(keys: seq<string>, k: string, i: int) {
    0 <= i < |keys| && keys[i] == k && forall j | i < j < |keys| :: keys[j] != k
  }

  /** The map's keys are exactly the keys set. */
  lemma {:induction false} DedupKeys<V>(keys: seq<string>, vals: seq<V>, k: string)
    requires |keys| == |vals|
    ensures k in Dedup(keys, vals).latest <==> k in keys
    decreases |keys|
  {
    if keys != [] {
      var n := |keys| - 1;
      DedupKeys(keys[..n], vals[..n], k);
      assert keys == keys[..n] + [keys[n]];
    }
  }

  /** One more `set` on the map built from the earlier pairs. */
  lemma DedupStep<V>(keys: seq<string>, vals: seq<V>)
    requires |keys| == |vals| > 0
    ensures Dedup(keys, vals) == Put(Dedup(keys[..|keys| - 1], vals[..|keys| - 1]), keys[|keys| - 1], vals[|keys| - 1])
  {
  }

  /** What the last `set` does to one key: it takes that key's value and leaves every other key as it was. */
  lemma LatestAfterPut<V>(keys: seq<string>, vals: seq<V>, k: string)
    requires |keys| == |vals| > 0
    ensures var n := |keys| - 1;
      var u, u0 := Dedup(keys, vals), Dedup(keys[..n], vals[..n]);
      (keys[n] == k ==> k in u.latest && u.latest[k] == vals[n])
      && (keys[n] != k ==> (k in u.latest <==> k in u0.latest) && (k in u0.latest ==> u.latest[k] == u0.latest[k]))
  {
    DedupStep(keys, vals);
  }

  /** A last position in the prefix stays last when the final key differs. */
  lemma LastAtExtend(keys: seq<string>, k: string, i: int)
    requires |keys| > 0 && LastAt(keys[..|keys| - 1], k, i) && keys[|keys| - 1] != k
    ensures LastAt(keys, k, i)
  {
    assert forall j | 0 <= j < |keys| - 1 :: keys[j] == keys[..|keys| - 1][j];
  }

  /** Each key holds the value of its last `set`. */
  lemma {:induction false} DedupLatest<V>(keys: seq<string>, vals: seq<V>, k: string)
    requires |keys| == |vals|
    requires k in Dedup(keys, vals).latest
    ensures exists i :: LastAt(keys, k, i) && Dedup(keys, vals).latest[k] == vals[i]
    decreases |keys|
  {
    var n := |keys| - 1;
    LatestAfterPut(keys, vals, k);
    if keys[n] == k {
      assert LastAt(keys, k, n);
    } else {
      DedupLatest(keys[..n], vals[..n], k);
      var i :| LastAt(keys[..n], k, i) && Dedup(keys[..n], vals[..n]).latest[k] == vals[..n][i];
      LastAtExtend(keys, k, i);
      assert vals[..n][i] == vals[i];
    }
  }

  /** A key's first position, when the key occurs before `n`, is its first position in the prefix. */
  lemma FirstAtPrefix(keys: seq<string>, k: string, i: int, n: int)
    requires FirstAt(keys, k, i) && 0 <= n <= |keys| && k in keys[..n]
    ensures FirstAt(keys[..n], k, i)
  {
    var m :| 0 <= m < n && keys[..n][m] == k;
    assert keys[m] == k;
  }

  /** The keys are listed in the order of their first `set`. */
  lemma {:induction false} DedupOrder<V>(keys: seq<string>, vals: seq<V>, a: int, b: int, i: int, j: int)
    requires |keys| == |vals|
    requires 0 <= a < b < |Dedup(keys, vals).order|
    requires FirstAt(keys, Dedup(keys, vals).order[a], i)
    requires FirstAt(keys, Dedup(keys, vals).order[b], j)
    ensures i < j
    decreases |keys|
  {
    var n := |keys| - 1;
    var init, initVals := keys[..n], vals[..n];
    var u0 := Dedup(init, initVals);
    var u := Dedup(keys, vals);
    DedupStep(keys, vals);
    var ka, kb := u.order[a], u.order[b];
    assert u.order[..|u0.order|] == u0.order;
    assert ka == u0.order[a];
    DedupKeys(init, initVals, ka);
    FirstAtPrefix(keys, ka, i, n);
    if b < |u0.order| {
      assert kb == u0.order[b];
      DedupKeys(init, initVals, kb);
      FirstAtPrefix(keys, kb, j, n);
      DedupOrder(init, initVals, a, b, i, j);
    } else {
      assert kb == keys[n] && kb !in u0.latest;
      DedupKeys(init, initVals, kb);
      assert keys[j] == kb;
    }
  }

  /** The defaults a saved row gets: the batch id, the current source, a profile and a category. */
  function Finalize(t: Txn, batchId: string, sourceKey: string): (r: Txn)
    ensures r.importBatchId == Some(batchId) && r.sourceKey == sourceKey
    ensures r.profileKey == Some(t.profileKey.GetOr(Personal))
    ensures r.categoryKey == Some(OrElse(t.categoryKey, Uncategorised))
    ensures r.(importBatchId := t.importBatchId, sourceKey := t.sourceKey, profileKey := t.profileKey,
               categoryKey := t.categoryKey) == t
  {
    t.(importBatchId := Some(batchId), sourceKey := sourceKey, profileKey := Some(t.profileKey.GetOr(Personal)),
       categoryKey := Some(OrElse(t.categoryKey, Uncategorised)))
  }

  /** `Array.from(unique.values()).map(...)`. */
  function FinalRows(rows: seq<Txn>, sourceKey: string, batchId: string): (r: seq<Txn>)
    ensures |r| == |Dedup(RowKeys(rows, sourceKey), rows).order|
  {
    var u := Dedup(RowKeys(rows, sourceKey), rows);
    seq(|u.order|, i requires 0 <= i < |u.order| => Finalize(u.latest[u.order[i]], batchId, sourceKey))
  }

  /** The import batch record. */
  datatype ImportBatch = ImportBatch(importBatchId: string, sourceKey: string, fileName: string,
                                     importedAt: string, rowCount: nat)

  /** What `saveBatch` does: nothing but a message when there are no rows, otherwise one batch and its rows. */
  datatype SaveOutcome = NoRows(status: string) | Saved(batch: ImportBatch, rows: seq<Txn>)

  /** The `forEach` of `saveBatch`: `set` every row under its key. */
  method FillUnique(rows: seq<Txn>, sourceKey: string) returns (order: seq<string>, latest: map<string, Txn>)
    ensures Unique(order, latest) == Dedup(RowKeys(rows, sourceKey), rows)
  {
    ghost var keys := RowKeys(rows, sourceKey);
    order, latest := [], map[];
    for i := 0 to |rows|
      invariant Unique(order, latest) == Dedup(keys[..i], rows[..i])
    {
      var t := rows[i];
      var key := match t.dedupeKey
        case Some(k) => k
        case None => DedupeKey(t.dateISO, t.signedAmount, t.description, sourceKey);
      assert key == keys[i];
      assert keys[..i + 1][..i] == keys[..i] && rows[..i + 1][..i] == rows[..i];
      if key !in latest {
        order := order + [key];
      }
      latest := latest[key := t];
    }
    assert keys[..|rows|] == keys && rows[..|rows|] == rows;
  }

  /**
    * `saveBatch` without the database: `batchId` is the fresh UUID and `now`
    * the current time as an ISO string.
    */
  method SaveBatch(parsedRows: seq<Txn>, sourceKey: string, fileName: string, batchId: string, now: string)
    returns (r: SaveOutcome)
    ensures parsedRows == [] ==> r == NoRows("No rows to save.")
    ensures parsedRows != [] ==> r.Saved? && r.rows == FinalRows(parsedRows, sourceKey, batchId)
    ensures parsedRows != [] ==> r.batch == ImportBatch(batchId, sourceKey, fileName, now, |r.rows|)
  {
    if |parsedRows| == 0 {
      return NoRows("No rows to save.");
    }
    var order, latest := FillUnique(parsedRows, sourceKey);
    var finalRows := seq(|order|, i requires 0 <= i < |order| => Finalize(latest[order[i]], batchId, sourceKey));
    r := Saved(ImportBatch(batchId, sourceKey, fileName, now, |finalRows|), finalRows);
  }

  /** Each saved row is the last input row with its key, given the save defaults. */
  lemma SavedRowIsLast(rows: seq<Txn>, sourceKey: string, batchId: string, a: int)
    requires 0 <= a < |FinalRows(rows, sourceKey, batchId)|
    ensures var saved := FinalRows(rows, sourceKey, batchId);
      RowKey(saved[a], sourceKey) == Dedup(RowKeys(rows, sourceKey), rows).order[a]
      && exists i :: LastAt(RowKeys(rows, sourceKey), RowKey(saved[a], sourceKey), i)
                     && saved[a] == Finalize(rows[i], batchId, sourceKey)
  {
    var keys := RowKeys(rows, sourceKey);
    var u := Dedup(keys, rows);
    var k := u.order[a];
    var saved := FinalRows(rows, sourceKey, batchId);
    assert saved[a] == Finalize(u.latest[k], batchId, sourceKey);
    DedupLatest(keys, rows, k);
    var i :| LastAt(keys, k, i) && u.latest[k] == rows[i];
    assert RowKey(rows[i], sourceKey) == k;
  }

  /** No two saved rows share a key. */
  lemma SavedKeysDistinct(rows: seq<Txn>, sourceKey: string, batchId: string, a: int, b: int)
    requires 0 <= a < b < |FinalRows(rows, sourceKey, batchId)|
    ensures var saved := FinalRows(rows, sourceKey, batchId);
      RowKey(saved[a], sourceKey) != RowKey(saved[b], sourceKey)
  {
    SavedRowIsLast(rows, sourceKey, batchId, a);
    SavedRowIsLast(rows, sourceKey, batchId, b);
  }

  /** Every input row's key is the key of some saved row. */
  lemma SavedKeysCover(rows: seq<Txn>, sourceKey: string, batchId: string, i: int)
    requires 0 <= i < |rows|
    ensures var saved := FinalRows(rows, sourceKey, batchId);
      exists a | 0 <= a < |saved| :: RowKey(saved[a], sourceKey) == RowKey(rows[i], sourceKey)
  {
    var keys := RowKeys(rows, sourceKey);
    var u := Dedup(keys, rows);
    DedupKeys(keys, rows, keys[i]);
    var a :| 0 <= a < |u.order| && u.order[a] == keys[i];
    SavedRowIsLast(rows, sourceKey, batchId, a);
  }

  /** The saved rows follow the first appearance of their keys among the input rows. */
  lemma SavedOrder(rows: seq<Txn>, sourceKey: string, batchId: string, a: int, b: int, i: int, j: int)
    requires 0 <= a < b < |FinalRows(rows, sourceKey, batchId)|
    requires FirstAt(RowKeys(rows, sourceKey), RowKey(FinalRows(rows, sourceKey, batchId)[a], sourceKey), i)
    requires FirstAt(RowKeys(rows, sourceKey), RowKey(FinalRows(rows, sourceKey, batchId)[b], sourceKey), j)
    ensures i < j
  {
    SavedRowIsLast(rows, sourceKey, batchId, a);
    SavedRowIsLast(rows, sourceKey, batchId, b);
    DedupOrder(RowKeys(rows, sourceKey), rows, a, b, i, j);
  }

  // ----- learned rules -----

  /** The rule "Remember" stores for a previewed row. */
  function LearnedRule(row: Txn): (r: Rule)
    ensures r.matchType == ContainsMatch && r.priority == Some(100) && r.enabled == Some(true)
    ensures |r.pattern| <= 30 && StartsWith(row.description, r.pattern)
    ensures r.pattern == Take(row.description, 30)
    ensures |row.description| >= 30 ==> |r.pattern| == 30
    ensures |row.description| < 30 ==> r.pattern == row.description
    ensures r.categoryKey == OrElse(row.categoryKey, Uncategorised) && r.profileKey == row.profileKey
  {
    Rule(Take(row.description, 30), ContainsMatch, OrElse(row.categoryKey, Uncategorised), row.profileKey,
         Some(100), Some(true))
  }

  /** A learned rule matches the description it was learned from. */
  lemma LearnedRuleHits(row: Txn)
    ensures Hits(Lower(row.description), LearnedRule(row))
  {
    var p := LearnedRule(row).pattern;
    LowerPrefix(row.description, |p|);
    ContainsPrefix(Lower(row.description), |p|);
  }

  /**
    * Once learned, the row's description is always labelled by a rule of
    * priority 100 or more, so at confidence 0.9; when no other enabled rule
    * that hits has priority 100 or more and "zip" is not in the
    * description, that rule is the learned one and the row keeps its
    * category.
    */
  lemma LearnedRuleApplies(row: Txn, rules: seq<Rule>)
    ensures var r := Classify(row, Ranked(rules + [LearnedRule(row)]));
      r.confidence == Some(0.9)
    ensures (forall x | x in rules && Enabled(x) && Hits(Lower(row.description), x) :: PriorityKey(x) < 100.0)
            && !Contains(Lower(row.description), "zip") ==>
      Classify(row, Ranked(rules + [LearnedRule(row)])).categoryKey == Some(OrElse(row.categoryKey, Uncategorised))
  {
    var all := rules + [LearnedRule(row)];
    var desc := Lower(row.description);
    LearnedRuleHits(row);
    WinnerHasTopPriority(desc, all);
    assert LearnedRule(row) in all;
    var w := FirstHit(desc, Ranked(all)).value;
    assert PriorityKey(w) >= 100.0;
    assert RuleConfidence(w) == 0.9;
  }
}
