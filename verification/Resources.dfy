/** services/resource.py, resolve_resources, and routes/oauth_grants.py, _resolve_token_resource. */
module Resources {
  import opened Common
  import opened Scope
  import Uri

  datatype ResourceResult =
    | Accepted(resources: seq<string>)
    | NotAnIndicator(value: string)
    | NotForThisClient(value: string)
    | NotInGrant(value: string)

  predicate Acceptable(value: string, client: Client, subset: Option<seq<string>>) {
    Uri.IsValidResourceIndicator(value)
    && (client.allowedResources != [] ==> value in client.allowedResources)
    && (subset.Some? ==> value in subset.value)
  }

  /** The outcome after the whole request: the first refusal, or each value at its first appearance. */
  function Resolved(requested: seq<string>, client: Client, subset: Option<seq<string>>): ResourceResult {
    if requested == [] then Accepted([])
    else
      var before := Resolved(requested[..|requested| - 1], client, subset);
      var value := requested[|requested| - 1];
      if !before.Accepted? then before
      else if !Uri.IsValidResourceIndicator(value) then NotAnIndicator(value)
      else if client.allowedResources != [] && value !in client.allowedResources then NotForThisClient(value)
      else if subset.Some? && value !in subset.value then NotInGrant(value)
      else Accepted(if value in before.resources then before.resources else before.resources + [value])
  }

  /** resolve_resources */
  method ResolveResources(requested: seq<string>, client: Client, subset: Option<seq<string>>)
    returns (r: ResourceResult)
    ensures r == Resolved(requested, client, subset)
  {
    var granted: seq<string> := [];
    for i := 0 to |requested|
      invariant Resolved(requested[..i], client, subset) == Accepted(granted)
    {
      var value := requested[i];
      assert requested[..i + 1][..i] == requested[..i];
      if !Uri.IsValidResourceIndicator(value) {
        RefusalIsFinal(requested, i + 1, client, subset);
        return NotAnIndicator(value);
      }
      if client.allowedResources != [] && value !in client.allowedResources {
        RefusalIsFinal(requested, i + 1, client, subset);
        return NotForThisClient(value);
      }
      if subset.Some? && value !in subset.value {
        RefusalIsFinal(requested, i + 1, client, subset);
        return NotInGrant(value);
      }
      if value !in granted {
        granted := granted + [value];
      }
    }
    assert requested[..|requested|] == requested;
    return Accepted(granted);
  }

  lemma {:induction false} RefusalIsFinal(requested: seq<string>, n: nat, client: Client, subset: Option<seq<string>>)
    requires n <= |requested| && !Resolved(requested[..n], client, subset).Accepted?
    ensures Resolved(requested, client, subset) == Resolved(requested[..n], client, subset)
  {
    if n == |requested| {
      assert requested[..n] == requested;
    } else {
      var init := requested[..|requested| - 1];
      assert init[..n] == requested[..n];
      RefusalIsFinal(init, n, client, subset);
    }
  }

  function FirstIndex(s: seq<string>, value: string): (k: nat)
    requires value in s
    ensures k < |s| && s[k] == value && forall j | 0 <= j < k :: s[j] != value
  {
    if s[0] == value then 0 else 1 + FirstIndex(s[1..], value)
  }

  lemma FirstIndexOfPrefix(s: seq<string>, last: string, value: string)
    requires value in s
    ensures FirstIndex(s + [last], value) == FirstIndex(s, value)
  {
    var k, t := FirstIndex(s, value), s + [last];
    assert t[k] == value && forall j | 0 <= j < k :: t[j] != value;
  }

  predicate InOrder(granted: seq<string>, requested: seq<string>) {
    (forall v | v in granted :: v in requested)
    && forall i, j | 0 <= i < j < |granted| ::
         FirstIndex(requested, granted[i]) < FirstIndex(requested, granted[j])
  }

  lemma InOrderExtends(granted: seq<string>, requested: seq<string>, last: string)
    requires InOrder(granted, requested)
    ensures InOrder(granted, requested + [last])
    ensures last !in requested ==> InOrder(granted + [last], requested + [last])
  {
    forall v | v in granted ensures FirstIndex(requested + [last], v) == FirstIndex(requested, v) {
      FirstIndexOfPrefix(requested, last, v);
    }
  }

  /** All of the request is granted, without repeats and in the order of first appearance, or none of it is:
      a grant is refused exactly when some value is unacceptable. */
  lemma {:induction false} GrantedExactly(requested: seq<string>, client: Client, subset: Option<seq<string>>)
    ensures var r := Resolved(requested, client, subset);
            && (r.Accepted? <==> forall v | v in requested :: Acceptable(v, client, subset))
            && (r.Accepted? ==>
                  && NoDuplicates(r.resources)
                  && (forall v :: v in r.resources <==> v in requested)
                  && InOrder(r.resources, requested))
            && (!r.Accepted? ==> r.value in requested && !Acceptable(r.value, client, subset))
  {
    if requested != [] {
      var init, value := requested[..|requested| - 1], requested[|requested| - 1];
      assert requested == init + [value];
      GrantedExactly(init, client, subset);
      assert value in requested && forall v :: v in requested <==> v in init || v == value;
      var before := Resolved(init, client, subset);
      if before.Accepted? {
        InOrderExtends(before.resources, init, value);
      }
    }
  }

  /** Every value before this one is acceptable. */
  predicate FirstRefused(requested: seq<string>, client: Client, subset: Option<seq<string>>, n: nat) {
    n < |requested| && forall i | 0 <= i < n :: Acceptable(requested[i], client, subset)
  }

  /** What is wrong with a value: its form, the client's allow-list, or the grant, whichever is looked at first. */
  predicate Fault(r: ResourceResult, client: Client, subset: Option<seq<string>>) {
    match r
    case Accepted(_) => false
    case NotAnIndicator(v) => !Uri.IsValidResourceIndicator(v)
    case NotForThisClient(v) =>
      Uri.IsValidResourceIndicator(v) && client.allowedResources != [] && v !in client.allowedResources
    case NotInGrant(v) =>
      Uri.IsValidResourceIndicator(v) && (client.allowedResources != [] ==> v in client.allowedResources)
      && subset.Some? && v !in subset.value
  }

  lemma LastIsFaulty(init: seq<string>, value: string, client: Client, subset: Option<seq<string>>)
    requires Resolved(init, client, subset).Accepted? && !Resolved(init + [value], client, subset).Accepted?
    ensures var r := Resolved(init + [value], client, subset); r.value == value && Fault(r, client, subset)
  {
    hide Uri.IsValidResourceIndicator;
    assert (init + [value])[..|init|] == init;
  }

  lemma RefusalStays(init: seq<string>, value: string, client: Client, subset: Option<seq<string>>)
    requires !Resolved(init, client, subset).Accepted?
    ensures Resolved(init + [value], client, subset) == Resolved(init, client, subset)
  {
    assert (init + [value])[..|init|] == init;
  }

  lemma FirstOfAppended(init: seq<string>, value: string, client: Client, subset: Option<seq<string>>)
    requires forall v | v in init :: Acceptable(v, client, subset)
    ensures FirstRefused(init + [value], client, subset, FirstIndex(init + [value], value))
  {
    hide Acceptable;
    var all := init + [value];
    assert all[|init|] == value;
    assert forall i | 0 <= i < |init| :: all[i] == init[i] && init[i] in init;
  }

  /** A refusal names the first unacceptable value, and what is wrong with it. */
  lemma {:induction false} RefusedExactly(requested: seq<string>, client: Client, subset: Option<seq<string>>)
    requires !Resolved(requested, client, subset).Accepted?
    ensures var r := Resolved(requested, client, subset);
            && r.value in requested && Fault(r, client, subset)
            && FirstRefused(requested, client, subset, FirstIndex(requested, r.value))
  {
    assert requested != [];
    hide Resolved, Fault, FirstIndex, Acceptable, InOrder, NoDuplicates;
    var init, value := requested[..|requested| - 1], requested[|requested| - 1];
    assert requested == init + [value];
    if Resolved(init, client, subset).Accepted? {
      GrantedExactly(init, client, subset);
      LastIsFaulty(init, value, client, subset);
      FirstOfAppended(init, value, client, subset);
    } else {
      RefusedExactly(init, client, subset);
      RefusalStays(init, value, client, subset);
      FirstIndexOfPrefix(init, value, Resolved(init, client, subset).value);
    }
  }

  /** What a /token request binds: None leaves the audience at oauth.audience. */
  datatype TokenResource = Bound(resources: Option<seq<string>>) | InvalidTarget

  function NonEmpty(resources: seq<string>): Option<seq<string>> {
    if resources == [] then None else Some(resources)
  }

  /** _resolve_token_resource; `original` None means no prior authorization step. */
  function ResolveTokenResource(requested: seq<string>, client: Option<Client>, original: Option<seq<string>>)
    : TokenResource
  {
    if requested == [] then
      if original.None? || original.value == [] then Bound(None)
      else if client.None? then Bound(original)
      else
        var r := Resolved(original.value, client.value, None);
        if r.Accepted? then Bound(NonEmpty(r.resources)) else InvalidTarget
    else if client.None? then InvalidTarget
    else
      var r := Resolved(requested, client.value, original);
      if r.Accepted? then Bound(NonEmpty(r.resources)) else InvalidTarget
  }

  /** A token can only narrow what was authorized; it binds nothing exactly when nothing was bound or asked for. */
  lemma NarrowsNeverWidens(requested: seq<string>, client: Option<Client>, original: seq<string>)
    ensures var r := ResolveTokenResource(requested, client, Some(original));
            r.Bound? ==>
              && (r.resources.Some? ==> r.resources.value != [] && forall v | v in r.resources.value :: v in original)
              && (r.resources.None? <==> original == [])
              && (requested != [] ==> forall v | v in requested :: v in r.resources.value)
  {
    if client.Some? {
      if requested == [] {
        GrantedExactly(original, client.value, None);
        assert original != [] ==> original[0] in original;
      } else {
        GrantedExactly(requested, client.value, Some(original));
        assert requested[0] in requested;
      }
    }
    hide Resolved, InOrder, NoDuplicates;
  }
}
