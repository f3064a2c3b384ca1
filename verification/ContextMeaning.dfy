/**
 * What context assembly promises about the items themselves: who is served first, how much of each
 * priority survives, and in which order the survivors are returned.
 */
module ContextMeaning {
  import opened Prelude
  import opened ContextBudget

  /** Item i is served before item j: its priority is higher, or equal and it is declared earlier. */
  predicate ServedBefore(items: seq<Item>, i: nat, j: nat)
    requires i < |items| && j < |items|
  {
    items[i].priority > items[j].priority || (items[i].priority == items[j].priority && i < j)
  }

  /** The item with all of its text up to its own cap. */
  function Whole(item: Item): Item
    requires item.Literal? && 0 <= item.maxChars <= |item.content|
  {
    item.(content := item.content[..item.maxChars], maxChars := item.maxChars)
  }

  ghost predicate Survives(items: seq<Item>, id: string) {
    exists k :: 0 <= k < |items| && items[k].id == id
  }

  /** Literals before the prompt, and after it for OpenAI only. */
  predicate Supported(runtime: Runtime, item: Item) {
    item.Literal? && (item.placement == BeforePrompt || (item.placement == AfterPrompt && runtime == OpenAI))
  }

  /** Assembly gets past its first loop exactly when every item is supported. */
  lemma {:induction false} AcceptedIffSupported(runtime: Runtime, items: seq<Item>)
    ensures AllAccepted(runtime, items) <==> forall i :: 0 <= i < |items| ==> Supported(runtime, items[i])
  {
    forall i | 0 <= i < |items| ensures Refusal(runtime, items[i]) == None <==> Supported(runtime, items[i]) {
    }
  }

  // ---- where the returned items come from -----------------------------------------------------------

  /** The entry is item number `index` with some of its text. */
  predicate Stems(items: seq<Item>, e: Entry) {
    e.index < |items| && e.item == items[e.index] && e.item.Literal?
  }

  lemma {:induction false} FittedStem(items: seq<Item>, budget: nat, e: Entry)
    requires AllUsable(items) && e in Fitted(Rendered(items), budget)
    ensures Stems(items, e)
  {
    var rendered := Rendered(items);
    SurvivorsAreThoseWithAShare(rendered, budget, rendered, e);
    var source :| source in rendered && source.index == e.index && source.item == e.item;
  }

  lemma {:induction false} OrderedStem(context: Context, e: Entry)
    requires WellFormed(context) && AllUsable(context.items)
    requires e in Ordered(context.ordering, Fitted(Rendered(context.items), context.maxChars))
    ensures Stems(context.items, e) && e in Fitted(Rendered(context.items), context.maxChars)
  {
    OrderedEntry(context.ordering, Fitted(Rendered(context.items), context.maxChars), e);
    FittedStem(context.items, context.maxChars, e);
  }

  lemma {:induction false} SortedEntry(ordering: Ordering, es: seq<Entry>, e: Entry)
    requires e in es
    ensures e in Ordered(ordering, es)
  {
    SortKeeps(es, e);
    assert e in multiset(SortByPriority(es));
  }

  // ---- priority decides who survives ------------------------------------------------------------------

  lemma {:induction false} PrecedesIffServed(items: seq<Item>, i: nat, j: nat)
    requires AllUsable(items) && i < |items| && j < |items|
    ensures Precedes(Rendered(items)[i], Rendered(items)[j]) <==> ServedBefore(items, i, j)
  {
  }

  lemma {:induction false} SurvivorHasShare(items: seq<Item>, budget: nat, e: Entry)
    requires AllUsable(items) && TotalLen(Rendered(items)) > budget && e in Fitted(Rendered(items), budget)
    ensures e.index < |items| && Allot(Rendered(items), budget, Rendered(items)[e.index]) > 0
  {
    var rendered := Rendered(items);
    SurvivorsAreThoseWithAShare(rendered, budget, rendered, e);
    var source :| source in rendered && Allot(rendered, budget, source) > 0
                  && e == CutTo(source, Allot(rendered, budget, source));
    var k :| 0 <= k < |rendered| && rendered[k] == source;
  }

  lemma {:induction false} FullShareIsWhole(items: seq<Item>, budget: nat, i: nat)
    requires AllUsable(items) && i < |items|
    requires TotalLen(Rendered(items)) > budget ==>
               Allot(Rendered(items), budget, Rendered(items)[i]) == |Rendered(items)[i].text|
    ensures Rendered(items)[i] in Fitted(Rendered(items), budget)
  {
    var rendered := Rendered(items);
    var e := rendered[i];
    if TotalLen(rendered) > budget {
      assert e.text[..|e.text|] == e.text && CutTo(e, |e.text|) == e;
      SurvivorsAreThoseWithAShare(rendered, budget, rendered, e);
    }
  }

  lemma {:induction false} ReturnedEntry(context: Context, id: string) returns (e: Entry)
    requires WellFormed(context) && AllUsable(context.items) && Survives(Assembled(context), id)
    ensures e in Fitted(Rendered(context.items), context.maxChars) && Stems(context.items, e) && e.item.id == id
  {
    var out := Assembled(context);
    var entries := Ordered(context.ordering, Fitted(Rendered(context.items), context.maxChars));
    var k :| 0 <= k < |out| && out[k].id == id;
    e := entries[k];
    OrderedStem(context, e);
  }

  lemma {:induction false} WholeIsReturned(context: Context, i: nat)
    requires WellFormed(context) && AllUsable(context.items) && i < |context.items|
    requires Rendered(context.items)[i] in Fitted(Rendered(context.items), context.maxChars)
    ensures Whole(context.items[i]) in Assembled(context)
  {
    var fitted, e := Fitted(Rendered(context.items), context.maxChars), Rendered(context.items)[i];
    SortedEntry(context.ordering, fitted, e);
    var k :| 0 <= k < |Ordered(context.ordering, fitted)| && Ordered(context.ordering, fitted)[k] == e;
    assert Assembled(context)[k] == Whole(context.items[i]);
  }

  /** If any of an item survives, every item served before it is returned whole. */
  lemma {:induction false} HigherPriorityIsWhole(context: Context, i: nat, j: nat)
    requires WellFormed(context) && AllUsable(context.items) && i < |context.items| && j < |context.items|
    requires ServedBefore(context.items, i, j) && Survives(Assembled(context), context.items[j].id)
    ensures Whole(context.items[i]) in Assembled(context)
  {
    var items, budget := context.items, context.maxChars;
    var rendered := Rendered(items);
    var e := ReturnedEntry(context, items[j].id);
    assert e.index == j;
    if TotalLen(rendered) > budget {
      SurvivorHasShare(items, budget, e);
      PrecedesIffServed(items, i, j);
      AtMostOneIsCut(rendered, budget, rendered[i], rendered[j]);
    }
    FullShareIsWhole(items, budget, i);
    WholeIsReturned(context, i);
  }

  // ---- the order of the output --------------------------------------------------------------------------

  /** Returned in order of priority and then of declaration, or in order of declaration. */
  lemma {:induction false} ReturnedInOrder(context: Context, a: nat, b: nat, i: nat, j: nat)
    requires WellFormed(context) && AllUsable(context.items) && a < b < |Assembled(context)|
    requires i < |context.items| && j < |context.items|
    requires Assembled(context)[a].id == context.items[i].id && Assembled(context)[b].id == context.items[j].id
    ensures if context.ordering == ByPriority then ServedBefore(context.items, i, j) else i < j
  {
    var items := context.items;
    var entries := Ordered(context.ordering, Fitted(Rendered(items), context.maxChars));
    OrderedStem(context, entries[a]);
    OrderedStem(context, entries[b]);
    assert entries[a].index == i && entries[b].index == j;
    OutputOrder(items, context.maxChars, context.ordering);
    PrecedesIffServed(items, i, j);
  }

  // ---- how much of each priority survives -----------------------------------------------------------------

  /** The characters of the items of at least this priority. */
  function LengthFrom(items: seq<Item>, p: int): int {
    if items == [] then 0
    else (if items[0].Literal? && items[0].priority >= p then |items[0].content| else 0) + LengthFrom(items[1..], p)
  }

  /** What their caps allow. */
  function CapsFrom(items: seq<Item>, p: int): int {
    if items == [] then 0
    else (if items[0].priority >= p then items[0].maxChars else 0) + CapsFrom(items[1..], p)
  }

  /** The same of entries, and of their shares of the budget. */
  function TextFrom(es: seq<Entry>, p: int): nat {
    if es == [] then 0 else (if es[0].item.priority >= p then |es[0].text| else 0) + TextFrom(es[1..], p)
  }

  function SharesFrom(all: seq<Entry>, budget: nat, es: seq<Entry>, p: int): nat {
    if es == [] then 0
    else (if es[0].item.priority >= p then Allot(all, budget, es[0]) else 0) + SharesFrom(all, budget, es[1..], p)
  }

  lemma {:induction false} InsertKeepsFrom(all: seq<Entry>, budget: nat, e: Entry, es: seq<Entry>, p: int)
    ensures TextFrom(Insert(e, es), p) == TextFrom(es, p) + if e.item.priority >= p then |e.text| else 0
    ensures SharesFrom(all, budget, Insert(e, es), p) ==
              SharesFrom(all, budget, es, p) + if e.item.priority >= p then Allot(all, budget, e) else 0
  {
    if es != [] && !Precedes(e, es[0]) {
      InsertKeepsFrom(all, budget, e, es[1..], p);
      assert ([es[0]] + Insert(e, es[1..]))[1..] == Insert(e, es[1..]);
    } else {
      assert ([e] + es)[1..] == es;
    }
  }

  lemma {:induction false} SortKeepsFrom(all: seq<Entry>, budget: nat, es: seq<Entry>, p: int)
    ensures TextFrom(SortByPriority(es), p) == TextFrom(es, p)
    ensures SharesFrom(all, budget, SortByPriority(es), p) == SharesFrom(all, budget, es, p)
  {
    if es != [] {
      SortKeepsFrom(all, budget, es[1..], p);
      InsertKeepsFrom(all, budget, es[0], SortByPriority(es[1..]), p);
    }
  }

  /** In the order of spending the entries of at least some priority come first. */
  predicate Falling(es: seq<Entry>) {
    forall i, j :: 0 <= i < j < |es| ==> es[i].item.priority >= es[j].item.priority
  }

  lemma {:induction false} NoneFrom(all: seq<Entry>, budget: nat, es: seq<Entry>, p: int)
    requires forall i :: 0 <= i < |es| ==> es[i].item.priority < p
    ensures TextFrom(es, p) == 0 && SharesFrom(all, budget, es, p) == 0
  {
    if es != [] {
      NoneFrom(all, budget, es[1..], p);
    }
  }

  lemma {:induction false} FromIsAPrefix(all: seq<Entry>, budget: nat, es: seq<Entry>, p: int) returns (k: nat)
    requires Falling(es)
    ensures k <= |es| && TextFrom(es, p) == TotalLen(es[..k])
    ensures SharesFrom(all, budget, es, p) == KeptLen(all, budget, es[..k])
  {
    if es == [] || es[0].item.priority < p {
      k := 0;
      NoneFrom(all, budget, es, p);
    } else {
      var m := FromIsAPrefix(all, budget, es[1..], p);
      k := m + 1;
      assert es[..k][1..] == es[1..][..m];
    }
  }

  lemma {:induction false} SurvivorsFrom(all: seq<Entry>, budget: nat, es: seq<Entry>, p: int)
    ensures TextFrom(Survivors(all, budget, es), p) == SharesFrom(all, budget, es, p)
  {
    if es != [] {
      var n, rest := Allot(all, budget, es[0]), Survivors(all, budget, es[1..]);
      SurvivorsFrom(all, budget, es[1..], p);
      var head := Entry(es[0].index, es[0].item, es[0].text[..n]);
      assert ([head] + rest)[1..] == rest && [] + rest == rest;
    }
  }

  /** The entries of at least this priority share the whole budget, or keep all of their text. */
  lemma {:induction false} SharesFromThreshold(es: seq<Entry>, budget: nat, p: int)
    requires DistinctIndices(es)
    ensures SharesFrom(es, budget, es, p) == if TextFrom(es, p) < budget then TextFrom(es, p) else budget
  {
    var sorted := SortByPriority(es);
    SortRanks(es);
    var k := FromIsAPrefix(es, budget, sorted, p);
    SortKeepsFrom(es, budget, es, p);
    TopEntriesKeepAllTheyCan(es, budget, k);
  }

  lemma {:induction false} TextFromIsPart(es: seq<Entry>, p: int)
    ensures TextFrom(es, p) <= TotalLen(es)
  {
    if es != [] {
      TextFromIsPart(es[1..], p);
    }
  }

  lemma {:induction false} ItemsFrom(es: seq<Entry>, p: int)
    requires forall i :: 0 <= i < |es| ==> es[i].item.Literal?
    ensures LengthFrom(Items(es), p) == TextFrom(es, p)
  {
    if es != [] {
      assert Items(es)[1..] == Items(es[1..]);
      ItemsFrom(es[1..], p);
    }
  }

  lemma {:induction false} RenderedFrom(items: seq<Item>, es: seq<Entry>, p: int)
    requires |es| == |items|
    requires forall i :: 0 <= i < |es| ==> es[i].item == items[i] && |es[i].text| == items[i].maxChars
    ensures TextFrom(es, p) == CapsFrom(items, p)
  {
    if es != [] {
      RenderedFrom(items[1..], es[1..], p);
    }
  }

  /** For every threshold the items of at least that priority fill the budget or are all there. */
  lemma {:induction false} BudgetGoesToThePriorities(context: Context, p: int)
    requires WellFormed(context) && AllUsable(context.items)
    ensures LengthFrom(Assembled(context), p) ==
              if CapsFrom(context.items, p) < context.maxChars then CapsFrom(context.items, p) else context.maxChars
  {
    var items, budget := context.items, context.maxChars;
    var rendered := Rendered(items);
    var fitted := Fitted(rendered, budget);
    var ordered := Ordered(context.ordering, fitted);
    forall i | 0 <= i < |ordered| ensures ordered[i].item.Literal? {
      OrderedStem(context, ordered[i]);
    }
    ItemsFrom(ordered, p);
    SortKeepsFrom(rendered, budget, fitted, p);
    RenderedFrom(items, rendered, p);
    TextFromIsPart(rendered, p);
    if TotalLen(rendered) > budget {
      SurvivorsFrom(rendered, budget, rendered, p);
      SharesFromThreshold(rendered, budget, p);
    }
  }
}
