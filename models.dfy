/** The model service: the request body of List, the ordering of its
    results, the not-found rule of Detail, and FlattenItems, which orders a
    tool's parameters quick items first. The HTTP call and JSON decoding
    are outside the model: responses are inputs. */
module Models {
  import opened Wrappers
  import opened Text
  import opened Api
  import opened Sorting

  /** A JSON request body value. */
  datatype JsonValue = JString(s: string) | JBool(b: bool)

  /** The limit List sends: 50 unless a positive one is given. */
  function EffectiveLimit(limit: int): (r: nat)
    ensures r > 0
    ensures limit > 0 ==> r == limit
    ensures limit <= 0 ==> r == 50
  {
    if limit <= 0 then 50 else limit
  }

  /** The body List posts to /Tool/List. */
  function ListBody(query: string, limit: int): (body: map<string, JsonValue>)
    ensures body.Keys == {"start", "limit", "sort", "order", "summary"} + (if IsBlank(query) then {} else {"search"})
    ensures body["limit"] == JString(NatToString(EffectiveLimit(limit)))
    ensures body["sort"] == JString("id") && body["order"] == JString("DESC")
    ensures body["summary"] == JBool(true) && body["start"] == JString("0")
    ensures "search" in body <==> !IsBlank(query)
    ensures "search" in body ==> body["search"] == JString(TrimSpace(query))
  {
    var base := map["start" := JString("0"), "limit" := JString(NatToString(EffectiveLimit(limit))),
                    "sort" := JString("id"), "order" := JString("DESC"), "summary" := JBool(true)];
    if !IsBlank(query) then base["search" := JString(TrimSpace(query))] else base
  }

  /** A decoded Tool/List or Tool/Detail response. */
  datatype Response<T> = Response(result: bool, errors: seq<string>, tools: seq<T>)

  datatype ModelError = ListFailed(message: string) | DetailFailed(message: string)
                      | NotFound(owner: string, slug: string)

  /** The sort key of a listed model: "owner/project", lowered. */
  function ToolKey(t: ToolSummary): string {
    ToLower(t.slugOwner + "/" + t.slugProject)
  }

  /** List after the call: an error report when the API says so, else the
      tools sorted by their lowered "owner/project". */
  method List(resp: Response<ToolSummary>) returns (r: Result<seq<ToolSummary>, ModelError>)
    ensures !resp.result && resp.errors != [] ==> r == Failure(ListFailed(resp.errors[0]))
    ensures resp.result || resp.errors == [] ==>
              r.Success? && SortedBy(r.value, ToolKey) && multiset(r.value) == multiset(resp.tools)
  {
    if !resp.result && |resp.errors| > 0 {
      return Failure(ListFailed(resp.errors[0]));
    }
    var tools := SortBy(resp.tools, ToolKey);
    return Success(tools);
  }

  /** Detail after the call: the first error of a failed reply, else the
      first tool, not found when there is none. */
  function Detail(resp: Response<ToolDetail>, owner: string, slug: string): (r: Result<ToolDetail, ModelError>)
    ensures r.Success? <==> (resp.result || resp.errors == []) && resp.tools != []
    ensures !resp.result && resp.errors != [] ==> r == Failure(DetailFailed(resp.errors[0]))
    ensures r.Success? ==> r.value == resp.tools[0]
    ensures (resp.result || resp.errors == []) && resp.tools == [] ==> r == Failure(NotFound(owner, slug))
  {
    if !resp.result && |resp.errors| > 0 then Failure(DetailFailed(resp.errors[0]))
    else if |resp.tools| == 0 then Failure(NotFound(owner, slug))
    else Success(resp.tools[0])
  }

  // ---------------------------------------------------------------- FlattenItems

  /** Every item of every group, in group then item order. */
  function AllItems(groups: seq<ParamGroup>): seq<ParamItem>
    decreases |groups|
  {
    if groups == [] then [] else AllItems(groups[..|groups| - 1]) + groups[|groups| - 1].items
  }

  /** The items whose Advanced flag is `advanced`, in order. */
  function Having(items: seq<ParamItem>, advanced: bool): (r: seq<ParamItem>)
    ensures forall i :: 0 <= i < |r| ==> r[i].advanced == advanced
    ensures |r| <= |items|
    decreases |items|
  {
    if items == [] then []
    else
      var last := items[|items| - 1];
      Having(items[..|items| - 1], advanced) + (if last.advanced == advanced then [last] else [])
  }

  lemma HavingAppend(a: seq<ParamItem>, b: seq<ParamItem>, advanced: bool)
    ensures Having(a + b, advanced) == Having(a, advanced) + Having(b, advanced)
    decreases |b|
  {
    if b != [] {
      assert (a + b)[..|a + b| - 1] == a + b[..|b| - 1];
      HavingAppend(a, b[..|b| - 1], advanced);
    } else {
      assert a + b == a;
    }
  }

  /** The quick and advanced items together are all the items. */
  lemma {:induction false} HavingSplit(items: seq<ParamItem>)
    ensures multiset(Having(items, false)) + multiset(Having(items, true)) == multiset(items)
    ensures |Having(items, false)| + |Having(items, true)| == |items|
    decreases |items|
  {
    if items != [] {
      var init, last := items[..|items| - 1], items[|items| - 1];
      HavingSplit(init);
      assert items == init + [last];
      assert multiset(items) == multiset(init) + multiset{last};
      if last.advanced {
        assert Having(items, true) == Having(init, true) + [last];
        assert Having(items, false) == Having(init, false);
      } else {
        assert Having(items, false) == Having(init, false) + [last];
        assert Having(items, true) == Having(init, true);
      }
    }
  }

  /** The list FlattenItems returns. */
  function Flattened(d: ToolDetail, includeAdvanced: bool): seq<ParamItem> {
    var all := AllItems(d.parameters);
    if includeAdvanced then Having(all, false) + Having(all, true) else Having(all, false)
  }

  /** The inner loop of FlattenItems over one group's items. */
  method CollectGroup(items: seq<ParamItem>, quick0: seq<ParamItem>, advanced0: seq<ParamItem>)
    returns (quick: seq<ParamItem>, advanced: seq<ParamItem>)
    ensures quick == quick0 + Having(items, false)
    ensures advanced == advanced0 + Having(items, true)
  {
    quick, advanced := quick0, advanced0;
    for i := 0 to |items|
      invariant quick == quick0 + Having(items[..i], false)
      invariant advanced == advanced0 + Having(items[..i], true)
    {
      assert items[..i + 1][..i] == items[..i];
      if items[i].advanced {
        advanced := advanced + [items[i]];
      } else {
        quick := quick + [items[i]];
      }
    }
    assert items[..|items|] == items;
  }

  /** FlattenItems: one pass over the groups, collecting quick and advanced
      items apart, then quick items followed (if asked) by advanced ones. */
  method FlattenItems(d: ToolDetail, includeAdvanced: bool) returns (r: seq<ParamItem>)
    ensures r == Flattened(d, includeAdvanced)
  {
    var quick: seq<ParamItem> := [];
    var advanced: seq<ParamItem> := [];
    for g := 0 to |d.parameters|
      invariant quick == Having(AllItems(d.parameters[..g]), false)
      invariant advanced == Having(AllItems(d.parameters[..g]), true)
    {
      ghost var before := AllItems(d.parameters[..g]);
      quick, advanced := CollectGroup(d.parameters[g].items, quick, advanced);
      assert d.parameters[..g + 1][..g] == d.parameters[..g];
      assert AllItems(d.parameters[..g + 1]) == before + d.parameters[g].items;
      HavingAppend(before, d.parameters[g].items, false);
      HavingAppend(before, d.parameters[g].items, true);
    }
    assert d.parameters[..|d.parameters|] == d.parameters;
    if includeAdvanced {
      return quick + advanced;
    }
    return quick;
  }

  /** Without advanced items the list is exactly the quick items in order;
      with them it is a rearrangement of all items, quick ones first. */
  lemma FlattenedMeaning(d: ToolDetail)
    ensures forall i :: 0 <= i < |Flattened(d, false)| ==> !Flattened(d, false)[i].advanced
    ensures multiset(Flattened(d, true)) == multiset(AllItems(d.parameters))
    ensures |Flattened(d, true)| == |AllItems(d.parameters)|
    ensures Flattened(d, true)[..|Flattened(d, false)|] == Flattened(d, false)
    ensures forall i :: |Flattened(d, false)| <= i < |Flattened(d, true)| ==> Flattened(d, true)[i].advanced
  {
    HavingSplit(AllItems(d.parameters));
  }

  /** Some item is advanced exactly when the advanced list is not empty. */
  lemma {:induction false} HavingAdvanced(items: seq<ParamItem>)
    ensures Having(items, true) != [] <==> exists x :: x in items && x.advanced
    decreases |items|
  {
    if items != [] {
      var init, last := items[..|items| - 1], items[|items| - 1];
      HavingAdvanced(init);
      assert items == init + [last];
      assert forall x :: x in items <==> x in init || x == last;
    }
  }

  /** AllItems up to group g + 1 adds that group's items. */
  lemma AllItemsNext(groups: seq<ParamGroup>, g: nat)
    requires g < |groups|
    ensures AllItems(groups[..g + 1]) == AllItems(groups[..g]) + groups[g].items
  {
    assert groups[..g + 1][..g] == groups[..g];
  }

  /** An item of a group is an item of the whole list. */
  lemma {:induction false} AllItemsHas(groups: seq<ParamGroup>, g: nat, x: ParamItem)
    requires g < |groups| && x in groups[g].items
    ensures x in AllItems(groups)
    decreases |groups|
  {
    var n := |groups| - 1;
    if g < n {
      assert groups[..n][g] == groups[g];
      AllItemsHas(groups[..n], g, x);
    }
  }
}
