/** Token estimation, context windows and usage bookkeeping of the AI client.
    Prices are floating-point and are not modelled; a record's estimated cost
    is supplied by the caller, and costs are summed as reals. */
module TokenTracker {
  import opened Common

  // ---------------------------------------------------------------------------
  // estimateTokenCount
  // ---------------------------------------------------------------------------

  /** The words of `s`: maximal runs of characters that are not white space,
      with `cur` the part of a word already read. This is what
      `text.trim().split(/\s+/).filter(w => w.length > 0)` returns. */
  function WordsFrom(s: string, cur: string, ws: char -> bool): (r: seq<string>)
    decreases |s|
  {
    if |s| == 0 then (if |cur| > 0 then [cur] else [])
    else if ws(s[0]) then (if |cur| > 0 then [cur] else []) + WordsFrom(s[1..], [], ws)
    else WordsFrom(s[1..], cur + [s[0]], ws)
  }

  function Words(s: string, ws: char -> bool): seq<string> {
    WordsFrom(s, [], ws)
  }

  /** The characters that belong to words. */
  function WordChar(ws: char -> bool): char -> bool {
    c => !ws(c)
  }

  /** Every word is non-empty and holds no white space. */
  lemma {:induction false} WordsAreWords(s: string, cur: string, ws: char -> bool)
    requires forall c :: c in cur ==> !ws(c)
    ensures forall w :: w in WordsFrom(s, cur, ws) ==> |w| > 0 && forall c :: c in w ==> !ws(c)
    decreases |s|
  {
    if |s| > 0 {
      if ws(s[0]) {
        WordsAreWords(s[1..], [], ws);
      } else {
        WordsAreWords(s[1..], cur + [s[0]], ws);
      }
    }
  }

  /** Together the words are exactly the non-white-space characters of the text, in order. */
  lemma {:induction false} WordsCoverText(s: string, cur: string, ws: char -> bool)
    ensures Flatten(WordsFrom(s, cur, ws)) == cur + Filter(s, WordChar(ws))
    decreases |s|
  {
    if |s| == 0 {
      if |cur| > 0 {
        assert Flatten([cur]) == cur + Flatten([]);
      }
    } else if ws(s[0]) {
      WordsCoverText(s[1..], [], ws);
      CoverAtSpace(s, cur, ws);
    } else {
      WordsCoverText(s[1..], cur + [s[0]], ws);
      CoverAtWordChar(s, cur, ws);
    }
  }

  /** The step at a white-space character: the word in progress ends there. */
  lemma CoverAtSpace(s: string, cur: string, ws: char -> bool)
    requires |s| > 0 && ws(s[0])
    requires Flatten(WordsFrom(s[1..], [], ws)) == [] + Filter(s[1..], WordChar(ws))
    ensures Flatten(WordsFrom(s, cur, ws)) == cur + Filter(s, WordChar(ws))
  {
    var f := Filter(s[1..], WordChar(ws));
    var rest := WordsFrom(s[1..], [], ws);
    assert Flatten(rest) == f by { assert [] + f == f; }
    assert Filter(s, WordChar(ws)) == f;
    if |cur| > 0 {
      assert WordsFrom(s, cur, ws) == [cur] + rest;
      assert ([cur] + rest)[1..] == rest;
      assert Flatten([cur] + rest) == cur + f;
    } else {
      assert WordsFrom(s, cur, ws) == rest by { assert [] + rest == rest; }
      assert cur + f == f;
    }
  }

  /** The step at a word character: it joins the word in progress. */
  lemma CoverAtWordChar(s: string, cur: string, ws: char -> bool)
    requires |s| > 0 && !ws(s[0])
    requires Flatten(WordsFrom(s[1..], cur + [s[0]], ws)) == (cur + [s[0]]) + Filter(s[1..], WordChar(ws))
    ensures Flatten(WordsFrom(s, cur, ws)) == cur + Filter(s, WordChar(ws))
  {
    var f := Filter(s[1..], WordChar(ws));
    assert WordsFrom(s, cur, ws) == WordsFrom(s[1..], cur + [s[0]], ws);
    assert Filter(s, WordChar(ws)) == [s[0]] + f;
    AppendAssociative(cur, [s[0]], f);
  }

  /** The number of words depends only on whether a word is in progress. */
  lemma {:induction false} WordCountIgnoresPrefix(s: string, c1: string, c2: string, ws: char -> bool)
    requires (|c1| > 0) == (|c2| > 0)
    ensures |WordsFrom(s, c1, ws)| == |WordsFrom(s, c2, ws)|
    decreases |s|
  {
    if |s| > 0 && !ws(s[0]) {
      WordCountIgnoresPrefix(s[1..], c1 + [s[0]], c2 + [s[0]], ws);
    }
  }

  /** Counts words in one pass: a word starts at a non-white-space character
      that begins the text or follows white space. */
  method CountWords(s: string, ws: char -> bool) returns (n: nat)
    ensures n == |Words(s, ws)|
  {
    n := 0;
    var inWord := false;
    ghost var cur: string := [];
    var i := 0;
    while i < |s|
      invariant 0 <= i <= |s|
      invariant inWord <==> |cur| > 0
      invariant n + |WordsFrom(s[i..], cur, ws)| == |Words(s, ws)|
    {
      assert s[i..][1..] == s[i + 1..];
      if ws(s[i]) {
        if inWord {
          n := n + 1;
        }
        inWord := false;
        cur := [];
      } else {
        if !inWord {
          WordCountIgnoresPrefix(s[i + 1..], [s[i]], cur + [s[i]], ws);
          cur := [s[i]];
        } else {
          cur := cur + [s[i]];
        }
        inWord := true;
      }
      i := i + 1;
    }
    if inWord {
      n := n + 1;
    }
  }

  /** `Math.ceil(x / d)` on naturals. */
  function CeilDiv(x: nat, d: nat): (q: nat)
    requires d > 0
    ensures q * d >= x && (q == 0 || (q - 1) * d < x)
  {
    (x + d - 1) / d
  }

  /** `estimateTokenCount`: the rounded-up mean of `ceil(units / 4)` and
      `ceil(words * 1.3)`, and 0 for the empty text. The length is JavaScript's
      `length`, which counts UTF-16 code units. */
  function EstimateTokenCount(text: string): (r: nat)
    ensures |text| == 0 <==> r == 0
    ensures |text| > 0 ==>
              r == CeilDiv(CeilDiv(|Utf16(text)|, 4) + CeilDiv(13 * |Words(text, IsJsWhitespace)|, 10), 2)
    ensures 8 * r >= |Utf16(text)|
    ensures 20 * r >= 13 * |Words(text, IsJsWhitespace)|
  {
    if |text| == 0 then 0
    else
      var charEstimate := CeilDiv(|Utf16(text)|, 4);
      var wordEstimate := CeilDiv(13 * |Words(text, IsJsWhitespace)|, 10);
      CeilDiv(charEstimate + wordEstimate, 2)
  }

  /** The estimate as the code computes it, counting words in a loop. */
  method EstimateTokens(text: string) returns (r: nat)
    ensures r == EstimateTokenCount(text)
  {
    if |text| == 0 {
      return 0;
    }
    var wordCount := CountWords(text, IsJsWhitespace);
    var charCount := |Utf16(text)|;
    var charEstimate := (charCount + 3) / 4;
    var wordEstimate := (13 * wordCount + 9) / 10;
    r := (charEstimate + wordEstimate + 1) / 2;
  }

  /** A text of `n` code units estimates to at least `n / 8` tokens and to at
      most `n + 1`: a word needs a character, so words never outweigh
      characters by much. */
  lemma EstimateBounds(text: string)
    ensures 8 * EstimateTokenCount(text) >= |Utf16(text)|
    ensures EstimateTokenCount(text) <= |Utf16(text)| + 1
  {
    WordsAreWords(text, [], IsJsWhitespace);
    WordsCoverText(text, [], IsJsWhitespace);
    var words := Words(text, IsJsWhitespace);
    FlattenAtLeastCount(words);
    assert |Filter(text, WordChar(IsJsWhitespace))| <= |text|;
  }

  /** Each word contributes at least one character to the flattening. */
  lemma {:induction false} FlattenAtLeastCount(ws: seq<string>)
    requires forall w :: w in ws ==> |w| > 0
    ensures |Flatten(ws)| >= |ws|
    decreases |ws|
  {
    if |ws| > 0 {
      assert ws[0] in ws;
      assert forall w :: w in ws[1..] ==> w in ws;
      FlattenAtLeastCount(ws[1..]);
    }
  }

  // ---------------------------------------------------------------------------
  // getContextWindow / fitsInContext
  // ---------------------------------------------------------------------------

  /** The context windows of the known models. */
  const ContextWindows: map<string, nat> := map[
    "gpt-4-turbo" := 128000,
    "gpt-4-turbo-preview" := 128000,
    "gpt-4" := 8192,
    "gpt-4-32k" := 32768,
    "gpt-3.5-turbo" := 16385,
    "gpt-3.5-turbo-16k" := 16385,
    "gpt-4o" := 128000,
    "gpt-4o-mini" := 128000,
    "claude-3-opus" := 200000,
    "claude-3-sonnet" := 200000,
    "claude-3-haiku" := 200000,
    "claude-3.5-sonnet" := 200000,
    "text-embedding-3-small" := 8191,
    "text-embedding-3-large" := 8191,
    "text-embedding-ada-002" := 8191,
    "ollama" := 8192,
    "llama2" := 4096,
    "mistral" := 8192,
    "codellama" := 16384]

  const DefaultContextWindow: nat := 4096

  /** `model.split(':')[0]`: the part of the name before the first colon. */
  function BeforeColon(model: string): (r: string)
    ensures ':' !in r
    ensures |r| <= |model| && r == model[..|r|]
    ensures |r| < |model| ==> model[|r|] == ':'
    decreases |model|
  {
    if |model| == 0 || model[0] == ':' then []
    else [model[0]] + BeforeColon(model[1..])
  }

  /** `getContextWindow`: the full model name first, then the name before the
      tag (`llama2:13b` is `llama2`), then the 4096-token default. */
  function GetContextWindow(model: string): (r: nat)
    ensures model in ContextWindows ==> r == ContextWindows[model]
    ensures model !in ContextWindows && BeforeColon(model) in ContextWindows ==> r == ContextWindows[BeforeColon(model)]
    ensures model !in ContextWindows && BeforeColon(model) !in ContextWindows ==> r == DefaultContextWindow
  {
    if model in ContextWindows then ContextWindows[model]
    else if BeforeColon(model) in ContextWindows then ContextWindows[BeforeColon(model)]
    else DefaultContextWindow
  }

  /** Every model, known or not, gets a window of at least 4096 tokens. */
  lemma ContextWindowAtLeastDefault(model: string)
    ensures GetContextWindow(model) >= DefaultContextWindow
  {
    assert forall m :: m in ContextWindows ==> ContextWindows[m] >= 4096;
  }

  /** A tagged name of a known model has the model's window. */
  lemma TaggedModelWindow(name: string, tag: string)
    requires name in ContextWindows && ':' !in name
    requires name + ":" + tag !in ContextWindows
    ensures GetContextWindow(name + ":" + tag) == ContextWindows[name]
  {
    var model := name + ":" + tag;
    assert model[..|name|] == name;
    assert model[|name|] == ':';
  }

  const DefaultReserveForOutput: nat := 1000

  /** `fitsInContext(model, text, reserve)`. */
  function FitsInContext(model: string, text: string, reserveForOutput: nat): (r: bool)
    ensures r <==> EstimateTokenCount(text) + reserveForOutput <= GetContextWindow(model)
  {
    EstimateTokenCount(text) + reserveForOutput <= GetContextWindow(model)
  }

  /** A text that fits has at most eight characters per token left after the
      reserve, and still fits with a smaller reserve. */
  lemma FittingTextIsShort(model: string, text: string, reserve: nat, smaller: nat)
    requires FitsInContext(model, text, reserve)
    requires smaller <= reserve
    ensures |text| <= 8 * (GetContextWindow(model) - reserve)
    ensures FitsInContext(model, text, smaller)
  {
  }

  // ---------------------------------------------------------------------------
  // Usage records: InMemoryUsageStorage and TokenTracker.record
  // ---------------------------------------------------------------------------

  /** One recorded call; `timestamp` is an ISO-8601 string. */
  datatype TokenUsage = TokenUsage(
    model: string,
    inputTokens: nat,
    outputTokens: nat,
    totalTokens: nat,
    estimatedCost: real,
    timestamp: string,
    operation: Option<string>,
    tenantId: Option<string>)

  /** The filter of `getByPeriod`; an empty tenant id filters nothing, as in JavaScript. */
  predicate InPeriod(u: TokenUsage, start: string, end: string, tenantId: Option<string>) {
    StrLessEq(start, u.timestamp) && StrLessEq(u.timestamp, end)
    && (!Truthy(tenantId) || u.tenantId == tenantId)
  }

  /** `getByPeriod(start, end, tenantId)`: the matching records, oldest first. */
  function GetByPeriod(records: seq<TokenUsage>, start: string, end: string, tenantId: Option<string>)
    : (r: seq<TokenUsage>)
    ensures forall u :: u in r <==> u in records && InPeriod(u, start, end, tenantId)
    ensures |r| <= |records|
  {
    Filter(records, u => InPeriod(u, start, end, tenantId))
  }

  /** Token, cost and call totals of a group of records. */
  datatype ModelUsage = ModelUsage(inputTokens: nat, outputTokens: nat, cost: real, calls: nat)

  /** Reference definition: the totals of `records`. */
  function Totals(records: seq<TokenUsage>): (t: ModelUsage)
    ensures t.calls == |records|
    decreases |records|
  {
    if |records| == 0 then ModelUsage(0, 0, 0.0, 0)
    else
      var t := Totals(records[..|records| - 1]);
      var u := records[|records| - 1];
      ModelUsage(t.inputTokens + u.inputTokens, t.outputTokens + u.outputTokens, t.cost + u.estimatedCost, t.calls + 1)
  }

  /** Reference definition: the totals of the records of one model. */
  function ModelTotals(records: seq<TokenUsage>, model: string): (t: ModelUsage)
    ensures t.calls <= |records|
    decreases |records|
  {
    if |records| == 0 then ModelUsage(0, 0, 0.0, 0)
    else
      var t := ModelTotals(records[..|records| - 1], model);
      var u := records[|records| - 1];
      if u.model == model then
        ModelUsage(t.inputTokens + u.inputTokens, t.outputTokens + u.outputTokens, t.cost + u.estimatedCost, t.calls + 1)
      else t
  }

  function ModelsOf(records: seq<TokenUsage>): set<string> {
    set u | u in records :: u.model
  }

  datatype UsageStats = UsageStats(
    totalInputTokens: nat,
    totalOutputTokens: nat,
    totalTokens: nat,
    totalCost: real,
    callCount: nat,
    byModel: map<string, ModelUsage>,
    periodStart: string,
    periodEnd: string)

  /** The per-model totals of `records`, as `getStats` accumulates them. */
  ghost predicate ByModelOf(byModel: map<string, ModelUsage>, records: seq<TokenUsage>) {
    && byModel.Keys == ModelsOf(records)
    && forall m :: m in byModel ==> byModel[m] == ModelTotals(records, m)
  }

  /** Adds one record to its model's totals. */
  function AddToModel(byModel: map<string, ModelUsage>, u: TokenUsage): (r: map<string, ModelUsage>)
    ensures r.Keys == byModel.Keys + {u.model}
  {
    var prev := if u.model in byModel then byModel[u.model] else ModelUsage(0, 0, 0.0, 0);
    byModel[u.model := ModelUsage(prev.inputTokens + u.inputTokens, prev.outputTokens + u.outputTokens,
                                  prev.cost + u.estimatedCost, prev.calls + 1)]
  }

  lemma TotalsSnoc(records: seq<TokenUsage>, u: TokenUsage)
    ensures Totals(records + [u]) == ModelUsage(Totals(records).inputTokens + u.inputTokens,
                                                Totals(records).outputTokens + u.outputTokens,
                                                Totals(records).cost + u.estimatedCost,
                                                Totals(records).calls + 1)
  {
    assert (records + [u])[..|records|] == records;
  }

  lemma ModelsOfSnoc(records: seq<TokenUsage>, u: TokenUsage)
    ensures ModelsOf(records + [u]) == ModelsOf(records) + {u.model}
  {
    var after := records + [u];
    forall m | m in ModelsOf(after) ensures m in ModelsOf(records) + {u.model} {
      var x :| x in after && x.model == m;
      if x != u {
        assert x in records;
      }
    }
    forall m | m in ModelsOf(records) ensures m in ModelsOf(after) {
      var x :| x in records && x.model == m;
      assert x in after;
    }
    assert u in after;
  }

  /** A model with no records has zero totals. */
  lemma {:induction false} UnseenModelHasNoTotals(records: seq<TokenUsage>, m: string)
    requires m !in ModelsOf(records)
    ensures ModelTotals(records, m) == ModelUsage(0, 0, 0.0, 0)
    decreases |records|
  {
    if |records| > 0 {
      var pre := records[..|records| - 1];
      assert records[|records| - 1] in records;
      assert forall x :: x in pre ==> x in records;
      UnseenModelHasNoTotals(pre, m);
    }
  }

  /** One more record keeps the per-model totals of the records seen so far. */
  lemma AddToModelStep(byModel: map<string, ModelUsage>, records: seq<TokenUsage>, u: TokenUsage)
    requires ByModelOf(byModel, records)
    ensures ByModelOf(AddToModel(byModel, u), records + [u])
  {
    var after := records + [u];
    var next := AddToModel(byModel, u);
    ModelsOfSnoc(records, u);
    assert after[..|records|] == records;
    if u.model !in byModel {
      UnseenModelHasNoTotals(records, u.model);
    }
    forall m | m in next ensures next[m] == ModelTotals(after, m) {
    }
  }

  /** `getStats(start, end, tenantId)` of the in-memory storage. */
  method GetStats(records: seq<TokenUsage>, start: string, end: string, tenantId: Option<string>)
    returns (stats: UsageStats)
    ensures var rs := GetByPeriod(records, start, end, tenantId);
            && stats.totalInputTokens == Totals(rs).inputTokens
            && stats.totalOutputTokens == Totals(rs).outputTokens
            && stats.totalCost == Totals(rs).cost
            && stats.callCount == |rs|
            && stats.byModel.Keys == ModelsOf(rs)
            && (forall m :: m in stats.byModel ==> stats.byModel[m] == ModelTotals(rs, m))
    ensures stats.totalTokens == stats.totalInputTokens + stats.totalOutputTokens
    ensures stats.periodStart == start && stats.periodEnd == end
  {
    var rs := GetByPeriod(records, start, end, tenantId);
    var byModel: map<string, ModelUsage> := map[];
    var totalIn: nat, totalOut: nat, totalCost: real := 0, 0, 0.0;
    var i := 0;
    while i < |rs|
      invariant 0 <= i <= |rs|
      invariant Totals(rs[..i]) == ModelUsage(totalIn, totalOut, totalCost, i)
      invariant ByModelOf(byModel, rs[..i])
    {
      var u := rs[i];
      assert rs[..i + 1] == rs[..i] + [u];
      TotalsSnoc(rs[..i], u);
      AddToModelStep(byModel, rs[..i], u);
      totalIn := totalIn + u.inputTokens;
      totalOut := totalOut + u.outputTokens;
      totalCost := totalCost + u.estimatedCost;
      byModel := AddToModel(byModel, u);
      i := i + 1;
    }
    assert rs[..|rs|] == rs;
    assert ByModelOf(byModel, rs);
    stats := UsageStats(totalIn, totalOut, totalIn + totalOut, totalCost, |rs|, byModel, start, end);
  }

  /** `TokenTracker.record`: the usage written, with the tracker's tenant used
      when the call names none, and the storage after the write. */
  function Record(storage: seq<TokenUsage>, model: string, inputTokens: nat, outputTokens: nat,
                  operation: Option<string>, tenantId: Option<string>, trackerTenant: Option<string>,
                  now: string, cost: (string, nat, nat) -> real): (r: (TokenUsage, seq<TokenUsage>))
    ensures r.1 == storage + [r.0]
    ensures r.0.totalTokens == r.0.inputTokens + r.0.outputTokens
    ensures r.0.model == model && r.0.inputTokens == inputTokens && r.0.outputTokens == outputTokens
    ensures r.0.timestamp == now && r.0.estimatedCost == cost(model, inputTokens, outputTokens)
    ensures r.0.tenantId == (if Truthy(tenantId) then tenantId else trackerTenant)
  {
    var usage := TokenUsage(model, inputTokens, outputTokens, inputTokens + outputTokens,
                            cost(model, inputTokens, outputTokens), now, operation,
                            if Truthy(tenantId) then tenantId else trackerTenant);
    (usage, storage + [usage])
  }

  /** A recorded call shows up in exactly the period queries that cover its
      time and tenant, after the ones already stored. */
  lemma RecordedUsageIsReported(storage: seq<TokenUsage>, model: string, inputTokens: nat, outputTokens: nat,
                                operation: Option<string>, tenantId: Option<string>, trackerTenant: Option<string>,
                                now: string, cost: (string, nat, nat) -> real,
                                start: string, end: string, queryTenant: Option<string>)
    ensures var (usage, after) := Record(storage, model, inputTokens, outputTokens, operation, tenantId,
                                         trackerTenant, now, cost);
            GetByPeriod(after, start, end, queryTenant)
              == GetByPeriod(storage, start, end, queryTenant)
                 + (if InPeriod(usage, start, end, queryTenant) then [usage] else [])
  {
    var (usage, after) := Record(storage, model, inputTokens, outputTokens, operation, tenantId,
                                 trackerTenant, now, cost);
    var p := u => InPeriod(u, start, end, queryTenant);
    FilterAppend(storage, [usage], p);
    assert [usage][1..] == [];
  }
}
