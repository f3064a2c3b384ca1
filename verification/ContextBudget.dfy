/**
 * Context assembly as the Anthropic, OpenAI and Gemini runtimes do it: each literal item is cut to
 * its own cap, and on overflow a budget is spent on the items in order of priority.
 */
module ContextBudget {
  import opened Prelude

  datatype Placement = BeforePrompt | AfterPrompt | ToolContext

  datatype Item =
    | Literal(id: string, placement: Placement, priority: int, maxChars: int, content: string)
    | Referenced(id: string, placement: Placement, priority: int, maxChars: int)

  datatype Overflow = Reject | TruncateLowPriority

  datatype Ordering = Declared | ByPriority

  datatype Context = Context(items: seq<Item>, maxChars: int, overflow: Overflow, ordering: Ordering)

  datatype Runtime = Anthropic | OpenAI | Gemini

  datatype Error =
    | ReferencedItem(id: string)
    | ToolContextItem(id: string)
    | AfterPromptItem(id: string)
    | Overflowed

  /** An element of `rendered`: declaration index, item, and the text it contributes. */
  datatype Entry = Entry(index: nat, item: Item, text: string)

  // ---- the validators -----------------------------------------------------------------------------

  predicate ValidItem(item: Item) {
    item.maxChars >= 1 && (item.Literal? ==> |item.content| >= 1 && item.maxChars <= |item.content|)
  }

  ghost predicate WellFormed(context: Context) {
    && context.maxChars >= 1
    && (forall i :: 0 <= i < |context.items| ==> ValidItem(context.items[i]))
    && forall i, j :: 0 <= i < j < |context.items| ==> context.items[i].id != context.items[j].id
  }

  function Caps(items: seq<Item>): int {
    if items == [] then 0 else items[0].maxChars + Caps(items[1..])
  }

  /** `context_must_be_bounded_and_unique`. */
  ghost predicate ValidContext(context: Context) {
    WellFormed(context) && (context.overflow == Reject ==> Caps(context.items) <= context.maxChars)
  }

  // ---- what a runtime accepts ---------------------------------------------------------------------

  /** The refusal of one item, if any. */
  function Refusal(runtime: Runtime, item: Item): Option<Error> {
    if item.Referenced? then Some(ReferencedItem(item.id))
    else if item.placement == ToolContext then Some(ToolContextItem(item.id))
    else if item.placement == AfterPrompt && runtime != OpenAI then Some(AfterPromptItem(item.id))
    else None
  }

  ghost predicate AllAccepted(runtime: Runtime, items: seq<Item>) {
    forall i :: 0 <= i < |items| ==> Refusal(runtime, items[i]) == None
  }

  /** The error is that of the first item the runtime refuses. */
  ghost predicate FirstRefusal(runtime: Runtime, items: seq<Item>, error: Error) {
    exists i :: 0 <= i < |items| && Refusal(runtime, items[i]) == Some(error) && AllAccepted(runtime, items[..i])
  }

  /** A literal item that passed its validator. */
  predicate Usable(item: Item) {
    item.Literal? && ValidItem(item)
  }

  ghost predicate AllUsable(items: seq<Item>) {
    forall i :: 0 <= i < |items| ==> Usable(items[i])
  }

  /** `item.content[: item.max_chars]`. */
  function Text(item: Item): string
    requires Usable(item)
  {
    item.content[..item.maxChars]
  }

  /** The entries before any budget is applied. */
  function Rendered(items: seq<Item>): (es: seq<Entry>)
    requires AllUsable(items)
    ensures |es| == |items|
    ensures forall i :: 0 <= i < |items| ==> Usable(items[i]) && es[i] == Entry(i, items[i], Text(items[i]))
  {
    seq(|items|, i requires 0 <= i < |items| => Entry(i, items[i], Text(items[i])))
  }

  /** The first loop: literals only, and every cap applied. */
  method RenderItems(runtime: Runtime, items: seq<Item>) returns (outcome: Result<seq<Entry>, Error>)
    requires forall i :: 0 <= i < |items| ==> ValidItem(items[i])
    ensures outcome.Ok? <==> AllAccepted(runtime, items)
    ensures outcome.Ok? ==> AllUsable(items) && outcome.value == Rendered(items)
    ensures outcome.Err? ==> FirstRefusal(runtime, items, outcome.error)
  {
    for n := 0 to |items|
      invariant AllAccepted(runtime, items[..n])
    {
      var refusal := Refusal(runtime, items[n]);
      if refusal.Some? {
        assert FirstRefusal(runtime, items, refusal.value);
        return Err(refusal.value);
      }
    }
    assert items[..|items|] == items;
    assert forall i :: 0 <= i < |items| ==> Refusal(runtime, items[i]) == None;
    outcome := Ok(Rendered(items));
  }

  // ---- the order of spending ----------------------------------------------------------------------

  /** The sort key: higher priority first, then declaration order. */
  predicate Precedes(a: Entry, b: Entry) {
    a.item.priority > b.item.priority || (a.item.priority == b.item.priority && a.index < b.index)
  }

  ghost predicate Ranked(es: seq<Entry>) {
    forall i, j :: 0 <= i < j < |es| ==> Precedes(es[i], es[j])
  }

  ghost predicate DistinctIndices(es: seq<Entry>) {
    forall i, j :: 0 <= i < j < |es| ==> es[i].index != es[j].index
  }

  function Insert(e: Entry, es: seq<Entry>): seq<Entry> {
    if es == [] || Precedes(e, es[0]) then [e] + es else [es[0]] + Insert(e, es[1..])
  }

  function SortByPriority(es: seq<Entry>): seq<Entry> {
    if es == [] then [] else Insert(es[0], SortByPriority(es[1..]))
  }

  function TotalLen(es: seq<Entry>): nat {
    if es == [] then 0 else |es[0].text| + TotalLen(es[1..])
  }

  /** The characters of the entries that come before e in the order of spending. */
  function Above(es: seq<Entry>, e: Entry): nat {
    if es == [] then 0 else (if Precedes(es[0], e) then |es[0].text| else 0) + Above(es[1..], e)
  }

  lemma {:induction false} InsertKeepsAll(e: Entry, es: seq<Entry>)
    ensures multiset(Insert(e, es)) == multiset(es) + multiset{e}
  {
    if es != [] && !Precedes(e, es[0]) {
      InsertKeepsAll(e, es[1..]);
      assert es == [es[0]] + es[1..];
    }
  }

  lemma {:induction false} InsertKeepsSums(e: Entry, es: seq<Entry>, f: Entry)
    ensures Above(Insert(e, es), f) == Above(es, f) + (if Precedes(e, f) then |e.text| else 0)
    ensures TotalLen(Insert(e, es)) == |e.text| + TotalLen(es)
  {
    if es != [] && !Precedes(e, es[0]) {
      InsertKeepsSums(e, es[1..], f);
      assert ([es[0]] + Insert(e, es[1..]))[1..] == Insert(e, es[1..]);
    } else {
      assert ([e] + es)[1..] == es;
    }
  }

  lemma {:induction false} InsertKeepsRanked(e: Entry, es: seq<Entry>)
    requires Ranked(es) && forall i :: 0 <= i < |es| ==> es[i].index != e.index
    ensures Ranked(Insert(e, es))
  {
    if es != [] && !Precedes(e, es[0]) {
      var rest, inserted := es[1..], Insert(e, es[1..]);
      InsertKeepsRanked(e, rest);
      InsertKeepsAll(e, rest);
      forall j | 0 <= j < |inserted| ensures Precedes(es[0], inserted[j]) {
        assert inserted[j] in multiset(inserted);
        assert inserted[j] == e || inserted[j] in rest;
      }
    }
  }

  lemma {:induction false} SortKeeps(es: seq<Entry>, f: Entry)
    ensures multiset(SortByPriority(es)) == multiset(es)
    ensures Above(SortByPriority(es), f) == Above(es, f)
    ensures TotalLen(SortByPriority(es)) == TotalLen(es)
  {
    if es != [] {
      var sorted := SortByPriority(es[1..]);
      SortKeeps(es[1..], f);
      InsertKeepsAll(es[0], sorted);
      InsertKeepsSums(es[0], sorted, f);
      assert es == [es[0]] + es[1..];
    }
  }

  lemma {:induction false} SortRanks(es: seq<Entry>)
    requires DistinctIndices(es)
    ensures Ranked(SortByPriority(es))
  {
    if es != [] {
      var sorted := SortByPriority(es[1..]);
      SortRanks(es[1..]);
      SortKeeps(es[1..], es[0]);
      forall i | 0 <= i < |sorted| ensures sorted[i].index != es[0].index {
        assert sorted[i] in multiset(es[1..]);
      }
      InsertKeepsRanked(es[0], sorted);
    }
  }

  lemma {:induction false} NoneAbove(es: seq<Entry>, e: Entry)
    requires forall i :: 0 <= i < |es| ==> !Precedes(es[i], e)
    ensures Above(es, e) == 0
  {
    if es != [] {
      NoneAbove(es[1..], e);
    }
  }

  /** In ranked order, what lies above an entry is what lies before it. */
  lemma {:induction false} RankedAbove(es: seq<Entry>, k: nat)
    requires Ranked(es) && k < |es|
    ensures Above(es, es[k]) == TotalLen(es[..k])
  {
    if k == 0 {
      NoneAbove(es, es[0]);
    } else {
      RankedAbove(es[1..], k - 1);
      assert es[1..][..k - 1] == es[..k][1..];
    }
  }

  lemma {:induction false} TotalLenAppend(es: seq<Entry>, fs: seq<Entry>)
    ensures TotalLen(es + fs) == TotalLen(es) + TotalLen(fs)
  {
    if es == [] {
      assert es + fs == fs;
    } else {
      assert (es + fs)[1..] == es[1..] + fs;
      TotalLenAppend(es[1..], fs);
    }
  }

  // ---- the closed form ----------------------------------------------------------------------------

  /** The characters an entry keeps: what is left of the budget once all entries above it are served. */
  function Allot(es: seq<Entry>, budget: nat, e: Entry): (n: nat)
    ensures n <= |e.text|
  {
    Share(budget, Above(es, e), |e.text|)
  }

  function Share(budget: nat, above: nat, length: nat): (n: nat)
    ensures n <= length
  {
    if budget <= above then 0 else if budget - above < length then budget - above else length
  }

  /** The surviving entries among es, in the same order. */
  function Survivors(all: seq<Entry>, budget: nat, es: seq<Entry>): seq<Entry> {
    if es == [] then []
    else
      var n := Allot(all, budget, es[0]);
      (if n > 0 then [Entry(es[0].index, es[0].item, es[0].text[..n])] else []) + Survivors(all, budget, es[1..])
  }

  // ---- the greedy loop ----------------------------------------------------------------------------

  ghost predicate DistinctIds(es: seq<Entry>) {
    forall i, j :: 0 <= i < j < |es| ==> es[i].item.id != es[j].item.id
  }

  /** `kept` holds the first n characters of e, and nothing when n is zero. */
  predicate Holds(kept: map<string, string>, e: Entry, n: nat) {
    n <= |e.text| && if n == 0 then e.item.id !in kept else e.item.id in kept && kept[e.item.id] == e.text[..n]
  }

  /** The first k entries were served from the budget, and `kept` holds nothing else. */
  ghost predicate Served(es: seq<Entry>, budget: nat, k: nat, kept: map<string, string>) {
    && k <= |es|
    && (forall i :: 0 <= i < k ==> Holds(kept, es[i], Share(budget, TotalLen(es[..i]), |es[i].text|)))
    && forall i :: k <= i < |es| ==> es[i].item.id !in kept
  }

  lemma {:induction false} ServeNext(es: seq<Entry>, budget: nat, k: nat, kept: map<string, string>, left: nat)
    requires DistinctIds(es) && k < |es| && Served(es, budget, k, kept)
    requires left == Left(budget, TotalLen(es[..k]))
    ensures var text := es[k].text[..if left < |es[k].text| then left else |es[k].text|];
            && Served(es, budget, k + 1, if text == "" then kept else kept[es[k].item.id := text])
            && left - |text| == Left(budget, TotalLen(es[..k + 1]))
  {
    TotalLenAppend(es[..k], [es[k]]);
    assert es[..k + 1] == es[..k] + [es[k]] && [es[k]][1..] == [];
  }

  function Left(budget: nat, spent: nat): nat {
    if spent <= budget then budget - spent else 0
  }

  lemma {:induction false} TotalLenMonotone(es: seq<Entry>, i: nat, j: nat)
    requires i <= j <= |es|
    ensures TotalLen(es[..i]) <= TotalLen(es[..j])
  {
    TotalLenAppend(es[..i], es[i..j]);
    assert es[..j] == es[..i] + es[i..j];
  }

  lemma {:induction false} NothingLeft(es: seq<Entry>, budget: nat, k: nat, kept: map<string, string>)
    requires Served(es, budget, k, kept) && (k == |es| || Left(budget, TotalLen(es[..k])) == 0)
    ensures Served(es, budget, |es|, kept)
  {
    forall i | k <= i < |es| ensures Holds(kept, es[i], Share(budget, TotalLen(es[..i]), |es[i].text|)) {
      TotalLenMonotone(es, k, i);
    }
  }

  /** The loop that spends the budget, over entries already in order. */
  method Spend(es: seq<Entry>, budget: nat) returns (kept: map<string, string>)
    requires DistinctIds(es)
    ensures Served(es, budget, |es|, kept)
  {
    kept := map[];
    var left, k := budget, 0;
    while k < |es|
      invariant k <= |es|
      invariant Served(es, budget, k, kept)
      invariant left == Left(budget, TotalLen(es[..k]))
    {
      if left <= 0 {
        break;
      }
      ServeNext(es, budget, k, kept, left);
      var selected := es[k].text[..if left < |es[k].text| then left else |es[k].text|];
      if selected != "" {
        kept := kept[es[k].item.id := selected];
        left := left - |selected|;
      }
      k := k + 1;
    }
    NothingLeft(es, budget, k, kept);
  }

  /** Spending in sorted order gives every entry its closed-form share. */
  lemma {:induction false} SpendingIsAllotting(es: seq<Entry>, budget: nat, kept: map<string, string>, e: Entry)
    requires DistinctIndices(es) && Served(SortByPriority(es), budget, |SortByPriority(es)|, kept) && e in es
    ensures Holds(kept, e, Allot(es, budget, e))
  {
    var sorted := SortByPriority(es);
    SortKeeps(es, e);
    SortRanks(es);
    assert e in multiset(sorted);
    var k :| 0 <= k < |sorted| && sorted[k] == e;
    RankedAbove(sorted, k);
  }

  /** `rendered = [... for ... in rendered if item.id in kept]`. */
  function Filtered(es: seq<Entry>, kept: map<string, string>): seq<Entry> {
    if es == [] then []
    else
      (if es[0].item.id in kept then [Entry(es[0].index, es[0].item, kept[es[0].item.id])] else [])
      + Filtered(es[1..], kept)
  }

  lemma {:induction false} FilteredSurvive(all: seq<Entry>, budget: nat, kept: map<string, string>, es: seq<Entry>)
    requires forall i :: 0 <= i < |es| ==> Holds(kept, es[i], Allot(all, budget, es[i]))
    ensures Filtered(es, kept) == Survivors(all, budget, es)
  {
    if es != [] {
      FilteredSurvive(all, budget, kept, es[1..]);
    }
  }

  lemma {:induction false} SortKeepsIds(es: seq<Entry>)
    requires DistinctIds(es) && DistinctIndices(es)
    ensures DistinctIds(SortByPriority(es))
  {
    var sorted := SortByPriority(es);
    SortRanks(es);
    forall i, j | 0 <= i < j < |sorted| ensures sorted[i].item.id != sorted[j].item.id {
      SortKeeps(es, sorted[i]);
      assert sorted[i] in multiset(es) && sorted[j] in multiset(es);
      assert Precedes(sorted[i], sorted[j]);
    }
  }

  // ---- the whole operation ------------------------------------------------------------------------

  /** What the context assembles to, from the closed form alone. */
  function Assembled(context: Context): seq<Item>
    requires AllUsable(context.items) && context.maxChars >= 0
  {
    Items(Ordered(context.ordering, Fitted(Rendered(context.items), context.maxChars)))
  }

  /** The entries that fit, in declaration order. */
  function Fitted(rendered: seq<Entry>, budget: nat): seq<Entry> {
    if TotalLen(rendered) > budget then Survivors(rendered, budget, rendered) else rendered
  }

  function Ordered(ordering: Ordering, es: seq<Entry>): seq<Entry> {
    if ordering == ByPriority then SortByPriority(es) else es
  }

  /** `item.model_copy(update={"content": content, "max_chars": len(content)})`. */
  function Copied(e: Entry): Item
    requires e.item.Literal?
  {
    e.item.(content := e.text, maxChars := |e.text|)
  }

  function Items(es: seq<Entry>): (items: seq<Item>)
    ensures |items| == |es|
    ensures forall i :: 0 <= i < |es| ==> items[i] == if es[i].item.Literal? then Copied(es[i]) else es[i].item
  {
    seq(|es|, i requires 0 <= i < |es| => if es[i].item.Literal? then Copied(es[i]) else es[i].item)
  }

  /** `_context_items`: the greedy loop computes the closed form, and its errors are these. */
  method ContextItems(runtime: Runtime, context: Context) returns (outcome: Result<seq<Item>, Error>)
    requires WellFormed(context)
    ensures !AllAccepted(runtime, context.items) ==>
              outcome.Err? && FirstRefusal(runtime, context.items, outcome.error)
    ensures AllAccepted(runtime, context.items) ==>
              if context.overflow == Reject && Caps(context.items) > context.maxChars then outcome == Err(Overflowed)
              else AllUsable(context.items) && outcome == Ok(Assembled(context))
  {
    var first := RenderItems(runtime, context.items);
    if first.Err? {
      return Err(first.error);
    }
    var rendered := first.value;
    RenderedFillsCaps(context.items);
    var total := TotalLen(rendered);
    if total > context.maxChars {
      if context.overflow == Reject {
        return Err(Overflowed);
      }
      rendered := Truncate(rendered, context.maxChars);
    }
    if context.ordering == ByPriority {
      rendered := SortByPriority(rendered);
    }
    outcome := Ok(Items(rendered));
  }

  method Truncate(rendered: seq<Entry>, budget: nat) returns (fitted: seq<Entry>)
    requires DistinctIds(rendered) && DistinctIndices(rendered)
    ensures fitted == Survivors(rendered, budget, rendered)
  {
    SortKeepsIds(rendered);
    var kept := Spend(SortByPriority(rendered), budget);
    forall i | 0 <= i < |rendered| ensures Holds(kept, rendered[i], Allot(rendered, budget, rendered[i])) {
      SpendingIsAllotting(rendered, budget, kept, rendered[i]);
    }
    FilteredSurvive(rendered, budget, kept, rendered);
    fitted := Filtered(rendered, kept);
  }

  /** Valid items render to exactly their caps. */
  lemma {:induction false} RenderedFillsCaps(items: seq<Item>)
    requires AllUsable(items)
    ensures TotalLen(Rendered(items)) == Caps(items)
  {
    if items != [] {
      RenderedFillsCaps(items[1..]);
      SameTexts(Rendered(items)[1..], Rendered(items[1..]));
    }
  }

  lemma {:induction false} SameTexts(es: seq<Entry>, fs: seq<Entry>)
    requires |es| == |fs| && forall i :: 0 <= i < |es| ==> |es[i].text| == |fs[i].text|
    ensures TotalLen(es) == TotalLen(fs)
  {
    if es != [] {
      SameTexts(es[1..], fs[1..]);
    }
  }

  // ---- what the closed form promises --------------------------------------------------------------

  /** The characters the entries keep altogether. */
  function KeptLen(all: seq<Entry>, budget: nat, es: seq<Entry>): nat {
    if es == [] then 0 else Allot(all, budget, es[0]) + KeptLen(all, budget, es[1..])
  }

  lemma {:induction false} SurvivorsTotal(all: seq<Entry>, budget: nat, es: seq<Entry>)
    ensures TotalLen(Survivors(all, budget, es)) == KeptLen(all, budget, es)
  {
    if es != [] {
      var n := Allot(all, budget, es[0]);
      var head := if n > 0 then [Entry(es[0].index, es[0].item, es[0].text[..n])] else [];
      SurvivorsTotal(all, budget, es[1..]);
      TotalLenAppend(head, Survivors(all, budget, es[1..]));
      assert n > 0 ==> head[1..] == [];
    }
  }

  lemma {:induction false} KeptLenAppend(all: seq<Entry>, budget: nat, es: seq<Entry>, fs: seq<Entry>)
    ensures KeptLen(all, budget, es + fs) == KeptLen(all, budget, es) + KeptLen(all, budget, fs)
  {
    if es == [] {
      assert es + fs == fs;
    } else {
      assert (es + fs)[1..] == es[1..] + fs;
      KeptLenAppend(all, budget, es[1..], fs);
    }
  }

  lemma {:induction false} KeptLenInsert(all: seq<Entry>, budget: nat, e: Entry, es: seq<Entry>)
    ensures KeptLen(all, budget, Insert(e, es)) == Allot(all, budget, e) + KeptLen(all, budget, es)
  {
    assert ([e] + es)[1..] == es;
    if es != [] && !Precedes(e, es[0]) {
      var inserted := Insert(e, es[1..]);
      KeptLenInsert(all, budget, e, es[1..]);
      assert ([es[0]] + inserted)[1..] == inserted;
    }
  }

  lemma {:induction false} KeptLenSorted(all: seq<Entry>, budget: nat, es: seq<Entry>)
    ensures KeptLen(all, budget, SortByPriority(es)) == KeptLen(all, budget, es)
  {
    if es != [] {
      KeptLenSorted(all, budget, es[1..]);
      KeptLenInsert(all, budget, es[0], SortByPriority(es[1..]));
    }
  }

  /** The share of the k-th entry in the order of spending, given what the ones before it are long. */
  lemma {:induction false} ShareInOrder(es: seq<Entry>, sorted: seq<Entry>, budget: nat, k: nat)
    requires DistinctIndices(es) && sorted == SortByPriority(es) && k < |sorted|
    ensures Allot(es, budget, sorted[k]) == Share(budget, TotalLen(sorted[..k]), |sorted[k].text|)
  {
    SortRanks(es);
    SortKeeps(es, sorted[k]);
    RankedAbove(sorted, k);
  }

  lemma {:induction false} LengthsOfPrefix(all: seq<Entry>, budget: nat, es: seq<Entry>, k: nat)
    requires k < |es|
    ensures TotalLen(es[..k + 1]) == TotalLen(es[..k]) + |es[k].text|
    ensures KeptLen(all, budget, es[..k + 1]) == KeptLen(all, budget, es[..k]) + Allot(all, budget, es[k])
  {
    assert es[..k + 1] == es[..k] + [es[k]] && [es[k]][1..] == [];
    TotalLenAppend(es[..k], [es[k]]);
    KeptLenAppend(all, budget, es[..k], [es[k]]);
  }

  /** For every k the k entries of highest priority keep as much of their text as the budget allows. */
  lemma {:induction false} TopEntriesKeepAllTheyCan(es: seq<Entry>, budget: nat, k: nat)
    requires DistinctIndices(es) && k <= |SortByPriority(es)|
    ensures var top := SortByPriority(es)[..k];
            KeptLen(es, budget, top) == if TotalLen(top) < budget then TotalLen(top) else budget
  {
    if k > 0 {
      var sorted := SortByPriority(es);
      TopEntriesKeepAllTheyCan(es, budget, k - 1);
      ShareInOrder(es, sorted, budget, k - 1);
      LengthsOfPrefix(es, budget, sorted, k - 1);
    }
  }

  /** On overflow the budget is spent to the last character. */
  lemma {:induction false} BudgetIsSpentExactly(es: seq<Entry>, budget: nat)
    requires DistinctIndices(es) && TotalLen(es) > budget
    ensures TotalLen(Survivors(es, budget, es)) == budget
  {
    if es != [] {
      var sorted := SortByPriority(es);
      SortKeeps(es, es[0]);
      TopEntriesKeepAllTheyCan(es, budget, |sorted|);
      assert sorted[..|sorted|] == sorted;
      KeptLenSorted(es, budget, es);
      SurvivorsTotal(es, budget, es);
    }
  }

  /** No way of cutting within the budget gives the k highest-priority entries more. */
  lemma {:induction false} NoAllocationBeatsGreedy(es: seq<Entry>, budget: nat, k: nat, cut: seq<nat>)
    requires DistinctIndices(es) && k <= |cut| == |SortByPriority(es)|
    requires forall i :: 0 <= i < |cut| ==> cut[i] <= |SortByPriority(es)[i].text|
    requires SumNat(cut) <= budget
    ensures SumNat(cut[..k]) <= KeptLen(es, budget, SortByPriority(es)[..k])
  {
    TopEntriesKeepAllTheyCan(es, budget, k);
    SumNatAppend(cut[..k], cut[k..]);
    assert cut == cut[..k] + cut[k..];
    CutsFit(SortByPriority(es)[..k], cut[..k]);
  }

  function SumNat(xs: seq<nat>): nat {
    if xs == [] then 0 else xs[0] + SumNat(xs[1..])
  }

  lemma {:induction false} SumNatAppend(xs: seq<nat>, ys: seq<nat>)
    ensures SumNat(xs + ys) == SumNat(xs) + SumNat(ys)
  {
    if xs == [] {
      assert xs + ys == ys;
    } else {
      assert (xs + ys)[1..] == xs[1..] + ys;
      SumNatAppend(xs[1..], ys);
    }
  }

  lemma {:induction false} CutsFit(es: seq<Entry>, cut: seq<nat>)
    requires |es| == |cut| && forall i :: 0 <= i < |cut| ==> cut[i] <= |es[i].text|
    ensures SumNat(cut) <= TotalLen(es)
  {
    if es != [] {
      CutsFit(es[1..], cut[1..]);
    }
  }

  lemma {:induction false} AboveGrows(es: seq<Entry>, a: Entry, b: Entry)
    requires Precedes(a, b)
    ensures Above(es, a) <= Above(es, b)
    ensures a in es ==> Above(es, a) + |a.text| <= Above(es, b)
  {
    if es != [] {
      AboveGrows(es[1..], a, b);
    }
  }

  /** At most one entry is cut: everything ranked above a survivor is whole, everything below a cut is gone. */
  lemma {:induction false} AtMostOneIsCut(es: seq<Entry>, budget: nat, a: Entry, b: Entry)
    requires a in es && b in es && Precedes(a, b)
    ensures Allot(es, budget, b) > 0 ==> Allot(es, budget, a) == |a.text|
    ensures Allot(es, budget, a) < |a.text| ==> Allot(es, budget, b) == 0
  {
    AboveGrows(es, a, b);
  }

  function CutTo(e: Entry, n: nat): Entry
    requires n <= |e.text|
  {
    Entry(e.index, e.item, e.text[..n])
  }

  /** The survivors are exactly the entries with a share, each cut to its share. */
  lemma {:induction false} SurvivorsAreThoseWithAShare(all: seq<Entry>, budget: nat, es: seq<Entry>, out: Entry)
    ensures out in Survivors(all, budget, es) <==>
              exists e :: e in es && Allot(all, budget, e) > 0 && out == CutTo(e, Allot(all, budget, e))
  {
    if es != [] {
      SurvivorsAreThoseWithAShare(all, budget, es[1..], out);
      assert es == [es[0]] + es[1..];
    }
  }

  ghost predicate InDeclaredOrder(es: seq<Entry>) {
    forall i, j :: 0 <= i < j < |es| ==> es[i].index < es[j].index
  }

  lemma {:induction false} SurvivorsKeepOrder(all: seq<Entry>, budget: nat, es: seq<Entry>)
    requires InDeclaredOrder(es)
    ensures InDeclaredOrder(Survivors(all, budget, es))
  {
    if es != [] {
      var rest := Survivors(all, budget, es[1..]);
      SurvivorsKeepOrder(all, budget, es[1..]);
      forall j | 0 <= j < |rest| ensures es[0].index < rest[j].index {
        SurvivorsAreThoseWithAShare(all, budget, es[1..], rest[j]);
      }
    }
  }

  /** The output order is declaration order, or strictly by priority and then declaration. */
  lemma {:induction false} OutputOrder(items: seq<Item>, budget: nat, ordering: Ordering)
    requires AllUsable(items)
    ensures var out := Ordered(ordering, Fitted(Rendered(items), budget));
            if ordering == ByPriority then Ranked(out) else InDeclaredOrder(out)
  {
    var rendered := Rendered(items);
    assert InDeclaredOrder(rendered);
    SurvivorsKeepOrder(rendered, budget, rendered);
    SortRanks(Fitted(rendered, budget));
  }

  // ---- what a validated context gives -------------------------------------------------------------

  /** A validated context is never rejected for overflow: its validator already bounds the caps. */
  lemma {:induction false} ValidContextNeverOverflows(context: Context)
    requires ValidContext(context) && context.overflow == Reject && AllUsable(context.items)
    ensures TotalLen(Rendered(context.items)) <= context.maxChars
  {
    RenderedFillsCaps(context.items);
  }

  /** Every assembled item is valid and keeps a prefix of one declared item, all else unchanged. */
  lemma {:induction false} AssembledItemsAreValid(context: Context, out: Item)
    requires WellFormed(context) && AllUsable(context.items) && out in Assembled(context)
    ensures ValidItem(out)
    ensures exists item :: item in context.items && IsCutOf(out, item)
  {
    var rendered := Rendered(context.items);
    var fitted := Fitted(rendered, context.maxChars);
    var ordered := Ordered(context.ordering, fitted);
    var i :| 0 <= i < |ordered| && Items(ordered)[i] == out;
    OrderedEntry(context.ordering, fitted, ordered[i]);
    FittedEntry(rendered, context.maxChars, ordered[i]);
    var e :| e in rendered && ordered[i].item == e.item && 0 < |ordered[i].text| && ordered[i].text <= e.text;
    assert e.item in context.items && IsCutOf(out, e.item);
  }

  lemma {:induction false} OrderedEntry(ordering: Ordering, es: seq<Entry>, e: Entry)
    requires e in Ordered(ordering, es)
    ensures e in es
  {
    SortKeeps(es, e);
    assert e in multiset(Ordered(ordering, es));
  }

  lemma {:induction false} FittedEntry(rendered: seq<Entry>, budget: nat, out: Entry)
    requires out in Fitted(rendered, budget) && forall e :: e in rendered ==> |e.text| > 0
    ensures exists e :: e in rendered && out.item == e.item && 0 < |out.text| && out.text <= e.text
  {
    if TotalLen(rendered) > budget {
      SurvivorsAreThoseWithAShare(rendered, budget, rendered, out);
    } else {
      assert out.text <= out.text;
    }
  }

  predicate IsCutOf(out: Item, source: Item) {
    && out.Literal? && source.Literal?
    && 1 <= |out.content| <= source.maxChars && out.content <= source.content
    && out == source.(content := out.content, maxChars := |out.content|)
  }

  // ---- the length of what is returned -------------------------------------------------------------

  /** The characters of the returned contents. */
  function ContentLen(items: seq<Item>): nat {
    if items == [] then 0 else (if items[0].Literal? then |items[0].content| else 0) + ContentLen(items[1..])
  }

  lemma {:induction false} ItemsKeepTexts(es: seq<Entry>)
    requires forall i :: 0 <= i < |es| ==> es[i].item.Literal?
    ensures ContentLen(Items(es)) == TotalLen(es)
  {
    if es != [] {
      assert Items(es)[1..] == Items(es[1..]);
      ItemsKeepTexts(es[1..]);
    }
  }

  lemma {:induction false} OrderedIsLiteral(context: Context, e: Entry)
    requires WellFormed(context) && AllUsable(context.items)
    requires e in Ordered(context.ordering, Fitted(Rendered(context.items), context.maxChars))
    ensures e.item.Literal?
  {
    var rendered := Rendered(context.items);
    OrderedEntry(context.ordering, Fitted(rendered, context.maxChars), e);
    FittedEntry(rendered, context.maxChars, e);
  }

  lemma {:induction false} FittedLength(rendered: seq<Entry>, budget: nat)
    requires DistinctIndices(rendered)
    ensures TotalLen(Fitted(rendered, budget)) == if TotalLen(rendered) > budget then budget else TotalLen(rendered)
  {
    if TotalLen(rendered) > budget {
      BudgetIsSpentExactly(rendered, budget);
    }
  }

  lemma {:induction false} OrderedLength(ordering: Ordering, es: seq<Entry>)
    ensures TotalLen(Ordered(ordering, es)) == TotalLen(es)
  {
    if es != [] {
      SortKeeps(es, es[0]);
    }
  }

  /**
   * The returned contents are as long as the caps allow altogether, and exactly as long as the budget
   * when the caps exceed it.
   */
  lemma {:induction false} ReturnedLength(context: Context)
    requires WellFormed(context) && AllUsable(context.items)
    ensures ContentLen(Assembled(context)) ==
              if Caps(context.items) > context.maxChars then context.maxChars else Caps(context.items)
  {
    var rendered := Rendered(context.items);
    var fitted := Fitted(rendered, context.maxChars);
    var ordered := Ordered(context.ordering, fitted);
    forall i | 0 <= i < |ordered| ensures ordered[i].item.Literal? {
      OrderedIsLiteral(context, ordered[i]);
    }
    ItemsKeepTexts(ordered);
    OrderedLength(context.ordering, fitted);
    FittedLength(rendered, context.maxChars);
    RenderedFillsCaps(context.items);
  }
}
