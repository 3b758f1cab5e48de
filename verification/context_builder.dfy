/** Priority-based assembly of an LLM context under a token budget: items are
    ordered by priority and relevance, then taken greedily while they fit,
    with critical items taken regardless. */
module ContextBuilder {
  import opened Common
  import opened Sorting
  import opened TokenTracker

  /** Lower rank is more important. */
  datatype ContextPriority = Critical | High | Medium | Low

  function PriorityRank(p: ContextPriority): nat {
    match p
    case Critical => 0
    case High => 1
    case Medium => 2
    case Low => 3
  }

  /** A context item; `tokens` is the stored count, if any. */
  datatype ContextItem = ContextItem(
    id: string,
    content: string,
    priority: ContextPriority,
    role: Option<string>,
    tokens: Option<nat>,
    itemType: Option<string>,
    relevance: Option<real>)

  /** The configuration as given. */
  datatype ContextBuilderConfig = ContextBuilderConfig(
    model: string,
    maxTokens: Option<int>,
    reserveForOutput: Option<int>,
    includeTruncationMarker: Option<bool>,
    truncationMarker: Option<string>)

  /** The configuration with every default filled in. */
  datatype ResolvedConfig = ResolvedConfig(
    model: string,
    maxTokens: int,
    reserveForOutput: int,
    includeTruncationMarker: bool,
    truncationMarker: string)

  const DefaultTruncationMarker: string := "[... additional context truncated ...]"

  /** The constructor: the budget defaults to the model's window less the output reserve (1000 by default). */
  function ResolveConfig(config: ContextBuilderConfig): (r: ResolvedConfig)
    ensures r.reserveForOutput == config.reserveForOutput.GetOr(1000)
    ensures config.maxTokens.None? ==> r.maxTokens == GetContextWindow(config.model) - r.reserveForOutput
    ensures config.maxTokens.Some? ==> r.maxTokens == config.maxTokens.value
    ensures r.includeTruncationMarker == config.includeTruncationMarker.GetOr(true)
    ensures r.truncationMarker == config.truncationMarker.GetOr(DefaultTruncationMarker)
  {
    var reserve := config.reserveForOutput.GetOr(1000);
    ResolvedConfig(config.model, config.maxTokens.GetOr(GetContextWindow(config.model) - reserve), reserve,
                   config.includeTruncationMarker.GetOr(true), config.truncationMarker.GetOr(DefaultTruncationMarker))
  }

  /** A resolved configuration passed back to the constructor, as `clone` does. */
  function AsGiven(c: ResolvedConfig): ContextBuilderConfig {
    ContextBuilderConfig(c.model, Some(c.maxTokens), Some(c.reserveForOutput), Some(c.includeTruncationMarker),
                         Some(c.truncationMarker))
  }

  datatype Builder = Builder(config: ResolvedConfig, items: seq<ContextItem>)

  function NewBuilder(config: ContextBuilderConfig): (b: Builder)
    ensures b.items == [] && b.config == ResolveConfig(config)
  {
    Builder(ResolveConfig(config), [])
  }

  /** The tokens an item counts for: its stored count, or the estimate when
      that is missing or zero. */
  function ItemTokens(item: ContextItem): nat {
    if item.tokens.Some? && item.tokens.value != 0 then item.tokens.value else EstimateTokenCount(item.content)
  }

  /** `add`: fills in a missing token count, then appends. */
  function Add(b: Builder, item: ContextItem): (r: Builder)
    ensures r.config == b.config && |r.items| == |b.items| + 1 && r.items[..|b.items|] == b.items
    ensures var added := r.items[|b.items|];
            && added == item.(tokens := added.tokens)
            && added.tokens.Some?
            && (item.tokens.Some? ==> added.tokens == item.tokens)
            && (item.tokens.None? ==> added.tokens == Some(EstimateTokenCount(item.content)))
    ensures ItemTokens(r.items[|b.items|]) == ItemTokens(item)
  {
    var stored := if item.tokens.None? then item.(tokens := Some(EstimateTokenCount(item.content))) else item;
    Builder(b.config, b.items + [stored])
  }

  /** `addAll`: `add` of each item in turn. */
  function AddAll(b: Builder, items: seq<ContextItem>): (r: Builder)
    ensures r.config == b.config && |r.items| == |b.items| + |items| && r.items[..|b.items|] == b.items
    ensures forall i :: 0 <= i < |items| ==> ItemTokens(r.items[|b.items| + i]) == ItemTokens(items[i])
    decreases |items|
  {
    if |items| == 0 then b
    else
      var r := AddAll(Add(b, items[0]), items[1..]);
      assert forall i :: 1 <= i < |items| ==> items[1..][i - 1] == items[i];
      r
  }

  function Clear(b: Builder): (r: Builder)
    ensures r.items == [] && r.config == b.config
  {
    b.(items := [])
  }

  // ---------------------------------------------------------------------------
  // build: ordering
  // ---------------------------------------------------------------------------

  function Relevance(item: ContextItem): real {
    item.relevance.GetOr(0.0)
  }

  /** The comparator of `build`, read as "may precede": more important priority
      first, and higher relevance first within a priority. */
  predicate BuildOrder(a: ContextItem, b: ContextItem) {
    if a.priority != b.priority then PriorityRank(a.priority) < PriorityRank(b.priority)
    else Relevance(a) >= Relevance(b)
  }

  lemma BuildOrderIsPreorder(items: seq<ContextItem>)
    ensures TotalPreorderOn(items, BuildOrder)
  {
    forall a, b | a in items && b in items ensures BuildOrder(a, b) || BuildOrder(b, a) {
    }
    forall a, b, c | a in items && b in items && c in items && BuildOrder(a, b) && BuildOrder(b, c)
      ensures BuildOrder(a, c)
    {
      BuildOrderTransitive(a, b, c);
    }
  }

  lemma BuildOrderTransitive(a: ContextItem, b: ContextItem, c: ContextItem)
    requires BuildOrder(a, b) && BuildOrder(b, c)
    ensures BuildOrder(a, c)
  {
  }

  /** `build` sorts a copy of the items. */
  function SortForBuild(items: seq<ContextItem>): (r: seq<ContextItem>)
    ensures multiset(r) == multiset(items)
    ensures SortedBy(r, BuildOrder)
  {
    BuildOrderIsPreorder(items);
    SortBySortedSelf(items, BuildOrder);
    SortBy(items, BuildOrder)
  }

  // ---------------------------------------------------------------------------
  // build: budgeted selection
  // ---------------------------------------------------------------------------

  function TotalTokens(items: seq<ContextItem>): nat {
    SumOf(items, ItemTokens)
  }

  function CriticalWeight(item: ContextItem): nat {
    if item.priority == Critical then ItemTokens(item) else 0
  }

  /** The tokens of the critical items. */
  function CriticalTokens(items: seq<ContextItem>): nat {
    SumOf(items, CriticalWeight)
  }

  /** Critical items come before all others. */
  predicate CriticalFirst(items: seq<ContextItem>) {
    forall i, j :: 0 <= i < j < |items| && items[j].priority == Critical ==> items[i].priority == Critical
  }

  datatype Selection = Selection(included: seq<ContextItem>, excluded: seq<ContextItem>, total: nat)

  /** The selection loop of `build`, from running total `total`: an item is
      taken when it fits, a critical item is taken anyway, and any other item
      is left out. */
  function Select(items: seq<ContextItem>, maxTokens: int, total: nat): (r: Selection)
    ensures multiset(r.included) + multiset(r.excluded) == multiset(items)
    ensures r.total == total + TotalTokens(r.included)
    ensures forall x :: x in r.excluded ==> x.priority != Critical && r.total + ItemTokens(x) > maxTokens
    decreases |items|
  {
    if |items| == 0 then Selection([], [], total)
    else
      var x := items[0];
      var t := ItemTokens(x);
      assert items == [x] + items[1..];
      if total + t <= maxTokens || x.priority == Critical then
        var r := Select(items[1..], maxTokens, total + t);
        Selection([x] + r.included, r.excluded, r.total)
      else
        var r := Select(items[1..], maxTokens, total);
        Selection(r.included, [x] + r.excluded, r.total)
  }

  /** The body of `build`'s loop: item `x` is taken when it fits next to the
      selection so far or is critical, and is left out otherwise. */
  function Decide(p: Selection, x: ContextItem, maxTokens: int): Selection {
    if p.total + ItemTokens(x) <= maxTokens || x.priority == Critical
    then Selection(p.included + [x], p.excluded, p.total + ItemTokens(x))
    else Selection(p.included, p.excluded + [x], p.total)
  }

  /** A selection with `x` decided in front of it. */
  function DecidedFirst(x: ContextItem, taken: bool, r: Selection): Selection {
    if taken then Selection([x] + r.included, r.excluded, r.total)
    else Selection(r.included, [x] + r.excluded, r.total)
  }

  lemma DecideAfterFirst(x0: ContextItem, taken: bool, q: Selection, x: ContextItem, maxTokens: int)
    ensures Decide(DecidedFirst(x0, taken, q), x, maxTokens) == DecidedFirst(x0, taken, Decide(q, x, maxTokens))
  {
  }

  /** The loop of `build`, one item at a time: selecting from `s` followed by
      `x` selects from `s`, then decides `x` by `Decide`. */
  lemma {:induction false} SelectStep(s: seq<ContextItem>, x: ContextItem, maxTokens: int, total: nat)
    ensures Select(s + [x], maxTokens, total) == Decide(Select(s, maxTokens, total), x, maxTokens)
    decreases |s|
  {
    if |s| == 0 {
      assert s + [x] == [x] + [];
      SelectCons(x, [], maxTokens, total);
    } else {
      var y, rest := s[0], s[1..];
      var taken := total + ItemTokens(y) <= maxTokens || y.priority == Critical;
      var next := if taken then total + ItemTokens(y) else total;
      assert s == [y] + rest;
      assert s + [x] == [y] + (rest + [x]);
      SelectCons(y, rest + [x], maxTokens, total);
      SelectCons(y, rest, maxTokens, total);
      SelectStep(rest, x, maxTokens, next);
      DecideAfterFirst(y, taken, Select(rest, maxTokens, next), x, maxTokens);
    }
  }

  /** One turn of the loop: the first item is decided, then the rest. */
  lemma SelectCons(x: ContextItem, rest: seq<ContextItem>, maxTokens: int, total: nat)
    ensures var taken := total + ItemTokens(x) <= maxTokens || x.priority == Critical;
            Select([x] + rest, maxTokens, total)
              == DecidedFirst(x, taken, Select(rest, maxTokens, if taken then total + ItemTokens(x) else total))
  {
    var items := [x] + rest;
    assert items[0] == x && items[1..] == rest;
    if total + ItemTokens(x) <= maxTokens || x.priority == Critical {
      var r := Select(rest, maxTokens, total + ItemTokens(x));
      assert Select(items, maxTokens, total) == Selection([x] + r.included, r.excluded, r.total);
    } else {
      var r := Select(rest, maxTokens, total);
      assert Select(items, maxTokens, total) == Selection(r.included, [x] + r.excluded, r.total);
    }
  }

  /** Every critical item is taken. */
  lemma CriticalItemsIncluded(items: seq<ContextItem>, maxTokens: int, total: nat, x: ContextItem)
    requires x in items && x.priority == Critical
    ensures x in Select(items, maxTokens, total).included
  {
    assert x in multiset(items);
  }

  /** When everything fits, everything is taken, in order. */
  lemma {:induction false} SelectAllFits(items: seq<ContextItem>, maxTokens: int, total: nat)
    requires total + TotalTokens(items) <= maxTokens
    ensures Select(items, maxTokens, total).included == items
    ensures Select(items, maxTokens, total).excluded == []
    decreases |items|
  {
    if |items| > 0 {
      SelectAllFits(items[1..], maxTokens, total + ItemTokens(items[0]));
    }
  }

  /** Without critical items, a selection that starts within budget stays within it. */
  lemma {:induction false} SelectStaysWithinBudget(items: seq<ContextItem>, maxTokens: int, total: nat)
    requires total <= maxTokens
    requires forall k :: 0 <= k < |items| ==> items[k].priority != Critical
    ensures Select(items, maxTokens, total).total <= maxTokens
    decreases |items|
  {
    if |items| > 0 {
      assert forall k :: 0 <= k < |items[1..]| ==> items[1..][k] == items[k + 1];
      var t := ItemTokens(items[0]);
      if total + t <= maxTokens {
        SelectStaysWithinBudget(items[1..], maxTokens, total + t);
      } else {
        SelectStaysWithinBudget(items[1..], maxTokens, total);
      }
    }
  }

  /** The taken items keep the order of the input. */
  lemma {:induction false} SelectKeepsOrder(items: seq<ContextItem>, maxTokens: int, total: nat)
    requires SortedBy(items, BuildOrder)
    ensures SortedBy(Select(items, maxTokens, total).included, BuildOrder)
    decreases |items|
  {
    if |items| > 0 {
      var t := ItemTokens(items[0]);
      TailSorted(items, BuildOrder);
      if total + t <= maxTokens || items[0].priority == Critical {
        SelectKeepsOrder(items[1..], maxTokens, total + t);
        TakenHeadKeepsOrder(items, maxTokens, total);
      } else {
        SelectKeepsOrder(items[1..], maxTokens, total);
        assert Select(items, maxTokens, total).included == Select(items[1..], maxTokens, total).included;
      }
    }
  }

  /** Taking the first item in front of an ordered selection from the rest keeps the order. */
  lemma TakenHeadKeepsOrder(items: seq<ContextItem>, maxTokens: int, total: nat)
    requires SortedBy(items, BuildOrder) && |items| > 0
    requires total + ItemTokens(items[0]) <= maxTokens || items[0].priority == Critical
    requires SortedBy(Select(items[1..], maxTokens, total + ItemTokens(items[0])).included, BuildOrder)
    ensures SortedBy(Select(items, maxTokens, total).included, BuildOrder)
  {
    var x := items[0];
    var r := Select(items[1..], maxTokens, total + ItemTokens(x));
    SelectedFromInput(items[1..], maxTokens, total + ItemTokens(x));
    HeadPrecedesTail(items);
    ConsSorted(x, r.included, BuildOrder);
    assert Select(items, maxTokens, total).included == [x] + r.included;
  }

  /** Every taken item comes from the input. */
  lemma SelectedFromInput(items: seq<ContextItem>, maxTokens: int, total: nat)
    ensures forall y :: y in Select(items, maxTokens, total).included ==> y in items
  {
    var r := Select(items, maxTokens, total);
    forall y | y in r.included ensures y in items {
      assert y in multiset(r.included);
      assert y in multiset(items);
    }
  }

  lemma HeadPrecedesTail(items: seq<ContextItem>)
    requires SortedBy(items, BuildOrder) && |items| > 0
    ensures forall y :: y in items[1..] ==> BuildOrder(items[0], y)
  {
    forall y | y in items[1..] ensures BuildOrder(items[0], y) {
      var k :| 0 <= k < |items[1..]| && items[1..][k] == y;
      assert items[k + 1] == y;
    }
  }

  lemma CriticalFirstTail(items: seq<ContextItem>)
    requires CriticalFirst(items) && |items| > 0
    ensures CriticalFirst(items[1..])
    ensures items[0].priority != Critical ==> forall k :: 0 <= k < |items| ==> items[k].priority != Critical
  {
    forall i, j | 0 <= i < j < |items[1..]| && items[1..][j].priority == Critical
      ensures items[1..][i].priority == Critical
    {
      assert items[1..][j] == items[j + 1] && items[1..][i] == items[i + 1];
    }
  }

  /** With the critical items first, the selection stays within budget exactly
      when the critical items alone do. */
  lemma {:induction false} SelectWithinBudget(items: seq<ContextItem>, maxTokens: int, total: nat)
    requires CriticalFirst(items)
    ensures Select(items, maxTokens, total).total <= maxTokens <==> total + CriticalTokens(items) <= maxTokens
    decreases |items|
  {
    if |items| > 0 {
      var x := items[0];
      CriticalFirstTail(items);
      if x.priority == Critical {
        SelectWithinBudget(items[1..], maxTokens, total + ItemTokens(x));
      } else {
        NoCriticalTokens(items);
        if total <= maxTokens {
          SelectStaysWithinBudget(items, maxTokens, total);
        }
      }
    }
  }

  lemma {:induction false} NoCriticalTokens(items: seq<ContextItem>)
    requires forall k :: 0 <= k < |items| ==> items[k].priority != Critical
    ensures CriticalTokens(items) == 0
    decreases |items|
  {
    if |items| > 0 {
      assert forall k :: 0 <= k < |items[1..]| ==> items[1..][k] == items[k + 1];
      NoCriticalTokens(items[1..]);
    }
  }

  /** An order in which critical items come first. */
  lemma SortedIsCriticalFirst(items: seq<ContextItem>)
    requires SortedBy(items, BuildOrder)
    ensures CriticalFirst(items)
  {
    forall i, j | 0 <= i < j < |items| && items[j].priority == Critical ensures items[i].priority == Critical {
      assert BuildOrder(items[i], items[j]);
    }
  }

  // ---------------------------------------------------------------------------
  // build: messages
  // ---------------------------------------------------------------------------

  datatype ChatMessage = ChatMessage(role: string, content: string)

  function TypeIs(t: string): ContextItem -> bool {
    (i: ContextItem) => i.itemType == Some(t)
  }

  /** Items of no known type, an absent type counting as the empty one. */
  function IsOtherType(): ContextItem -> bool {
    (i: ContextItem) => i.itemType.GetOr("") !in ["system", "document", "history", "user"]
  }

  function HasRole(): ContextItem -> bool {
    (i: ContextItem) => Truthy(i.role)
  }

  /** The role a message takes for an item of no known type. */
  function OtherRole(item: ContextItem): string {
    if Truthy(item.role) then item.role.value else "user"
  }

  /** One message per item, in order, each with role `role`. */
  function MessagesWithRole(items: seq<ContextItem>, role: string): (r: seq<ChatMessage>)
    ensures |r| == |items|
    ensures forall i :: 0 <= i < |items| ==> r[i] == ChatMessage(role, items[i].content)
  {
    seq(|items|, i requires 0 <= i < |items| => ChatMessage(role, items[i].content))
  }

  /** One message per history item, in order, each with the item's own role. */
  function HistoryMessages(items: seq<ContextItem>): (r: seq<ChatMessage>)
    requires forall x :: x in items ==> x.role.Some?
    ensures |r| == |items|
    ensures forall i :: 0 <= i < |items| ==> r[i] == ChatMessage(items[i].role.value, items[i].content)
  {
    seq(|items|, i requires 0 <= i < |items| => ChatMessage(items[i].role.value, items[i].content))
  }

  /** One message per item of another type, in order, with the item's role or "user". */
  function OtherMessages(items: seq<ContextItem>): (r: seq<ChatMessage>)
    ensures |r| == |items|
    ensures forall i :: 0 <= i < |items| ==> r[i] == ChatMessage(OtherRole(items[i]), items[i].content)
  {
    seq(|items|, i requires 0 <= i < |items| => ChatMessage(OtherRole(items[i]), items[i].content))
  }

  function Contents(items: seq<ContextItem>): (r: seq<string>)
    ensures |r| == |items| && forall i :: 0 <= i < |items| ==> r[i] == items[i].content
  {
    seq(|items|, i requires 0 <= i < |items| => items[i].content)
  }

  const DocumentSeparator: string := "\n\n---\n\n"

  /** The two relevance orders of `buildMessages`: documents most relevant
      first, history least relevant first. */
  predicate MoreRelevant(a: ContextItem, b: ContextItem) {
    Relevance(a) >= Relevance(b)
  }

  predicate LessRelevant(a: ContextItem, b: ContextItem) {
    Relevance(a) <= Relevance(b)
  }

  lemma RelevanceOrdersArePreorders(items: seq<ContextItem>)
    ensures TotalPreorderOn(items, MoreRelevant) && TotalPreorderOn(items, LessRelevant)
  {
  }

  /** The documents, most relevant first. */
  function ByRelevance(documents: seq<ContextItem>): (r: seq<ContextItem>)
    ensures multiset(r) == multiset(documents)
    ensures SortedBy(r, MoreRelevant)
  {
    RelevanceOrdersArePreorders(documents);
    SortBySortedSelf(documents, MoreRelevant);
    SortBy(documents, MoreRelevant)
  }

  /** The note that follows the documents when the build left items out and
      the configuration asks for it. */
  function TruncationNote(wasTruncated: bool, config: ResolvedConfig): (r: string)
    ensures wasTruncated && config.includeTruncationMarker ==> r == "\n\n" + config.truncationMarker
    ensures !(wasTruncated && config.includeTruncationMarker) ==> r == ""
  {
    if wasTruncated && config.includeTruncationMarker then "\n\n" + config.truncationMarker else ""
  }

  /** The single system message carrying the documents: a heading, the
      document contents most relevant first, and the truncation note. */
  function DocumentsMessage(documents: seq<ContextItem>, wasTruncated: bool, config: ResolvedConfig): (r: ChatMessage)
    ensures r.role == "system" && StartsWith(r.content, "Relevant context:")
    ensures r.content == "Relevant context:\n\n" + Join(Contents(ByRelevance(documents)), DocumentSeparator)
                         + TruncationNote(wasTruncated, config)
    ensures wasTruncated && config.includeTruncationMarker ==>
              var tail := "\n\n" + config.truncationMarker;
              |tail| <= |r.content| && r.content[|r.content| - |tail|..] == tail
  {
    var body := "Relevant context:\n\n" + Join(Contents(ByRelevance(documents)), DocumentSeparator);
    var note := TruncationNote(wasTruncated, config);
    assert (body + note)[..|"Relevant context:"|] == "Relevant context:";
    assert (body + note)[|body + note| - |note|..] == note;
    ChatMessage("system", body + note)
  }

  /** The history items that have a role, least relevant (oldest) first. */
  function HistoryInOrder(items: seq<ContextItem>): (r: seq<ContextItem>)
    ensures forall x :: x in r <==> x in items && x.itemType == Some("history") && Truthy(x.role)
    ensures SortedBy(r, LessRelevant)
  {
    var history := Filter(items, TypeIs("history"));
    RelevanceOrdersArePreorders(history);
    SortBySortedSelf(history, LessRelevant);
    var sorted := SortBy(history, LessRelevant);
    FilterSorted(sorted, HasRole(), LessRelevant);
    var r := Filter(sorted, HasRole());
    forall x
      ensures x in r <==> x in items && x.itemType == Some("history") && Truthy(x.role)
    {
      assert x in sorted <==> x in multiset(history);
      assert x in r <==> x in sorted && HasRole()(x);
      assert x in history <==> x in items && TypeIs("history")(x);
    }
    r
  }

  /** The messages of `buildMessages` laid out block by block: one system
      message per system item, then the documents message when there are
      documents, then the history, then the other items, then the user items. */
  function Layout(system: seq<ContextItem>, documents: seq<ContextItem>, history: seq<ContextItem>,
                  other: seq<ContextItem>, user: seq<ContextItem>,
                  wasTruncated: bool, config: ResolvedConfig): (r: seq<ChatMessage>)
    requires forall x :: x in history ==> x.role.Some?
    ensures var docs := if |documents| > 0 then 1 else 0;
            |r| == |system| + docs + |history| + |other| + |user|
    ensures forall i :: 0 <= i < |system| ==> r[i] == ChatMessage("system", system[i].content)
    ensures |documents| > 0 ==> r[|system|] == DocumentsMessage(documents, wasTruncated, config)
    ensures var start := |system| + (if |documents| > 0 then 1 else 0);
            forall i :: start <= i < start + |history| ==>
              r[i] == ChatMessage(history[i - start].role.value, history[i - start].content)
    ensures var start := |system| + (if |documents| > 0 then 1 else 0) + |history|;
            forall i :: start <= i < start + |other| ==>
              r[i] == ChatMessage(OtherRole(other[i - start]), other[i - start].content)
    ensures forall i :: |r| - |user| <= i < |r| ==> r[i] == ChatMessage("user", user[i - (|r| - |user|)].content)
  {
    var systemPart := MessagesWithRole(system, "system");
    var documentPart := if |documents| > 0 then [DocumentsMessage(documents, wasTruncated, config)] else [];
    var historyPart := HistoryMessages(history);
    var otherPart := OtherMessages(other);
    var userPart := MessagesWithRole(user, "user");
    FiveBlocks(systemPart, documentPart, historyPart, otherPart, userPart);
    systemPart + documentPart + historyPart + otherPart + userPart
  }

  /** `buildMessages`: system items, then the documents as one system message,
      then the history items that have a role (least relevant, i.e. oldest,
      first), then items of other types, then the user items. */
  function BuildMessages(items: seq<ContextItem>, wasTruncated: bool, config: ResolvedConfig): (r: seq<ChatMessage>)
    ensures r == Layout(Filter(items, TypeIs("system")), Filter(items, TypeIs("document")), HistoryInOrder(items),
                        Filter(items, IsOtherType()), Filter(items, TypeIs("user")), wasTruncated, config)
  {
    Layout(Filter(items, TypeIs("system")), Filter(items, TypeIs("document")), HistoryInOrder(items),
           Filter(items, IsOtherType()), Filter(items, TypeIs("user")), wasTruncated, config)
  }

  lemma FiveBlocks<T>(a: seq<T>, b: seq<T>, c: seq<T>, d: seq<T>, e: seq<T>)
    ensures var r := a + b + c + d + e;
            && |r| == |a| + |b| + |c| + |d| + |e|
            && (forall i :: 0 <= i < |a| ==> r[i] == a[i])
            && (forall i :: |a| <= i < |a| + |b| ==> r[i] == b[i - |a|])
            && (forall i :: |a| + |b| <= i < |a| + |b| + |c| ==> r[i] == c[i - |a| - |b|])
            && (forall i :: |a| + |b| + |c| <= i < |a| + |b| + |c| + |d| ==> r[i] == d[i - |a| - |b| - |c|])
            && (forall i :: |r| - |e| <= i < |r| ==> r[i] == e[i - (|r| - |e|)])
  {
  }

  // ---------------------------------------------------------------------------
  // build
  // ---------------------------------------------------------------------------

  datatype BuiltContext = BuiltContext(
    messages: seq<ChatMessage>,
    totalTokens: nat,
    remainingTokens: int,
    includedItems: seq<ContextItem>,
    excludedItems: seq<ContextItem>,
    wasTruncated: bool)

  /** The items of `b` in build order, selected against the budget. */
  function BuildSelection(b: Builder): (r: Selection)
    ensures multiset(r.included) + multiset(r.excluded) == multiset(b.items)
    ensures r.total == TotalTokens(r.included)
    ensures forall x :: x in r.excluded ==> x.priority != Critical && r.total + ItemTokens(x) > b.config.maxTokens
  {
    var sorted := SortForBuild(b.items);
    Select(sorted, b.config.maxTokens, 0)
  }

  /** `build` decides the sorted items in order: item k is taken exactly when
      it fits next to the items taken from the first k, or is critical, and
      the decision over all the items is the selection. */
  lemma BuildDecidesInOrder(b: Builder, k: nat)
    requires k < |b.items|
    ensures var sorted := SortForBuild(b.items);
            Select(sorted[..k + 1], b.config.maxTokens, 0)
              == Decide(Select(sorted[..k], b.config.maxTokens, 0), sorted[k], b.config.maxTokens)
    ensures var sorted := SortForBuild(b.items);
            BuildSelection(b) == Select(sorted[..|sorted|], b.config.maxTokens, 0)
  {
    var sorted := SortForBuild(b.items);
    assert |sorted| == |multiset(sorted)| == |b.items|;
    assert sorted[..k + 1] == sorted[..k] + [sorted[k]];
    SelectStep(sorted[..k], sorted[k], b.config.maxTokens, 0);
    assert sorted[..|sorted|] == sorted;
  }


  /** `build`. */
  function Build(b: Builder): (r: BuiltContext)
    ensures multiset(r.includedItems) + multiset(r.excludedItems) == multiset(b.items)
    ensures r.totalTokens == TotalTokens(r.includedItems)
    ensures forall x :: x in r.excludedItems ==>
              x.priority != Critical && r.totalTokens + ItemTokens(x) > b.config.maxTokens
    ensures r.wasTruncated <==> |r.excludedItems| > 0
    ensures r.remainingTokens >= 0 && r.remainingTokens >= b.config.maxTokens - r.totalTokens
    ensures r.remainingTokens == 0 || r.remainingTokens == b.config.maxTokens - r.totalTokens
    ensures r.messages == BuildMessages(r.includedItems, r.wasTruncated, b.config)
  {
    var selection := BuildSelection(b);
    var wasTruncated := |selection.excluded| > 0;
    var remaining := b.config.maxTokens - selection.total;
    BuiltContext(BuildMessages(selection.included, wasTruncated, b.config), selection.total,
                 if remaining > 0 then remaining else 0, selection.included, selection.excluded, wasTruncated)
  }

  /** Every critical item is included, and the included items are in build order. */
  lemma BuildKeepsCriticalInOrder(b: Builder)
    ensures forall x :: x in b.items && x.priority == Critical ==> x in Build(b).includedItems
    ensures SortedBy(Build(b).includedItems, BuildOrder)
  {
    var sorted := SortForBuild(b.items);
    forall x | x in b.items && x.priority == Critical ensures x in Build(b).includedItems {
      assert x in multiset(b.items);
      assert x in sorted;
      CriticalItemsIncluded(sorted, b.config.maxTokens, 0, x);
    }
    SelectKeepsOrder(sorted, b.config.maxTokens, 0);
  }

  /** `build` stays within budget exactly when the critical items alone do. */
  lemma BuildWithinBudget(b: Builder)
    ensures Build(b).totalTokens <= b.config.maxTokens <==> CriticalTokens(b.items) <= b.config.maxTokens
  {
    var sorted := SortForBuild(b.items);
    SortedIsCriticalFirst(sorted);
    SelectWithinBudget(sorted, b.config.maxTokens, 0);
    SortBySum(b.items, BuildOrder, CriticalWeight);
  }

  // ---------------------------------------------------------------------------
  // Budget queries and removal
  // ---------------------------------------------------------------------------

  /** `estimateTotalTokens`. */
  function EstimateTotalTokens(b: Builder): (r: nat)
    ensures r == TotalTokens(b.items)
    ensures r >= CriticalTokens(b.items)
  {
    CriticalAtMostTotal(b.items);
    TotalTokens(b.items)
  }

  lemma {:induction false} CriticalAtMostTotal(items: seq<ContextItem>)
    ensures CriticalTokens(items) <= TotalTokens(items)
    decreases |items|
  {
    if |items| > 0 {
      CriticalAtMostTotal(items[1..]);
    }
  }

  function FitsWithinBudget(b: Builder): (r: bool)
    ensures r <==> EstimateTotalTokens(b) <= b.config.maxTokens
  {
    EstimateTotalTokens(b) <= b.config.maxTokens
  }

  function GetRemainingBudget(b: Builder): (r: int)
    ensures r >= 0 && r >= b.config.maxTokens - EstimateTotalTokens(b)
    ensures r == 0 || r == b.config.maxTokens - EstimateTotalTokens(b)
  {
    var remaining := b.config.maxTokens - EstimateTotalTokens(b);
    if remaining > 0 then remaining else 0
  }

  /** When everything fits, `build` keeps every item, stays within budget, and
      leaves exactly the remaining budget. */
  lemma FittingBuildKeepsEverything(b: Builder)
    requires FitsWithinBudget(b)
    ensures Build(b).excludedItems == [] && !Build(b).wasTruncated
    ensures multiset(Build(b).includedItems) == multiset(b.items)
    ensures Build(b).totalTokens == EstimateTotalTokens(b)
    ensures Build(b).remainingTokens == GetRemainingBudget(b)
  {
    var sorted := SortForBuild(b.items);
    SortBySum(b.items, BuildOrder, ItemTokens);
    assert TotalTokens(sorted) == TotalTokens(b.items);
    SelectAllFits(sorted, b.config.maxTokens, 0);
  }

  function GetItemsByPriority(b: Builder, priority: ContextPriority): (r: seq<ContextItem>)
    ensures forall x :: x in r <==> x in b.items && x.priority == priority
  {
    Filter(b.items, (i: ContextItem) => i.priority == priority)
  }

  /** `removeByType`: drops the items of that type and keeps the rest in order. */
  function RemoveByType(b: Builder, t: string): (r: Builder)
    ensures r.config == b.config
    ensures forall x :: x in r.items <==> x in b.items && x.itemType != Some(t)
    ensures r.items == Filter(b.items, (i: ContextItem) => i.itemType != Some(t))
  {
    b.(items := Filter(b.items, (i: ContextItem) => i.itemType != Some(t)))
  }

  /** `removeById`: drops the items with that id and keeps the rest in order. */
  function RemoveById(b: Builder, id: string): (r: Builder)
    ensures r.config == b.config
    ensures forall x :: x in r.items <==> x in b.items && x.id != id
    ensures |r.items| <= |b.items|
    ensures r.items == Filter(b.items, (i: ContextItem) => i.id != id)
  {
    b.(items := Filter(b.items, (i: ContextItem) => i.id != id))
  }

  /** Removing an id that is not present changes nothing, and removing twice is removing once. */
  lemma RemoveByIdIdempotent(b: Builder, id: string)
    ensures RemoveById(RemoveById(b, id), id) == RemoveById(b, id)
    ensures (forall x :: x in b.items ==> x.id != id) ==> RemoveById(b, id) == b
  {
    FilterAllOrNone(b.items, (i: ContextItem) => i.id != id);
    FilterAllOrNone(RemoveById(b, id).items, (i: ContextItem) => i.id != id);
  }

  /** `clone`: a builder built from this one's configuration, with a copy of its items. */
  function Clone(b: Builder): (r: Builder)
    ensures r.config == b.config && r.items == b.items
  {
    Builder(ResolveConfig(AsGiven(b.config)), b.items)
  }

  /** A clone is independent: adding to it leaves the original's items as they were. */
  lemma CloneIsIndependent(b: Builder, item: ContextItem)
    ensures Add(Clone(b), item).items[..|b.items|] == b.items
    ensures |Add(Clone(b), item).items| == |b.items| + 1
  {
  }
}
