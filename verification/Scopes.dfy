/** Credential scopes: `resource:action`, and which held scope covers which required one. */
module Scopes {
  import opened Text

  function Resource(scope: string): string { Split(scope, ':')[0] }

  /** The second piece of `scope.split(':')`, undefined when there is no colon. */
  function Action(scope: string): Option<string> {
    var parts := Split(scope, ':');
    if |parts| > 1 then Some(parts[1]) else None
  }

  /** Whether one grant covers one requirement. */
  predicate Covers(grant: string, required: string) {
    || grant == "*"
    || grant == required
    || (&& Resource(grant) == Resource(required)
        && (Action(grant) == Some("*") || (Action(grant) == Some("write") && Action(required) == Some("read"))))
  }

  predicate ScopeSatisfies(held: seq<string>, required: string) {
    exists i :: 0 <= i < |held| && Covers(held[i], required)
  }

  predicate ScopesSatisfyAll(held: seq<string>, required: seq<string>) {
    forall i :: 0 <= i < |required| ==> ScopeSatisfies(held, required[i])
  }

  predicate LowerOrDigitOrDash(c: char) { 'a' <= c <= 'z' || IsDigit(c) || c == '-' }

  /** `*`, or lower-case `resource:action` with a named action. */
  predicate IsValidScope(scope: string) {
    || scope == "*"
    || (&& var parts := Split(scope, ':');
           && |parts| == 2
           && 2 <= |parts[0]| <= 41 && 'a' <= parts[0][0] <= 'z'
           && (forall i :: 0 <= i < |parts[0]| ==> LowerOrDigitOrDash(parts[0][i]))
           && parts[1] in {"read", "write", "manage", "*"})
  }

  /** What a scope covers covers nothing the scope does not. */
  ghost predicate Composes(grant: string) {
    forall middle, required :: Covers(grant, middle) && Covers(middle, required) ==> Covers(grant, required)
  }

  /**
   * Coverage composes for every grant but one family: both parts wildcards. `*:*` covers `*`, which
   * covers everything, and yet `*:*` covers only the resource named `*`.
   */
  lemma ComposesExactly(grant: string)
    ensures Composes(grant) <==> !(Resource(grant) == "*" && Action(grant) == Some("*"))
  {
    SplitAtFirst("*", [], ':');
    if Resource(grant) == "*" && Action(grant) == Some("*") {
      var beyond := "r:read";
      PartsOf("r", "read");
      assert "r" + ":" + "read" == beyond;
      assert "r"[0] != "*"[0];
      assert grant != beyond;
      assert Covers(grant, "*") && Covers("*", beyond) && !Covers(grant, beyond);
    } else {
      forall middle, required | Covers(grant, middle) && Covers(middle, required) ensures Covers(grant, required) {
        ComposesUnless(grant, middle, required);
      }
    }
  }

  lemma ComposesUnless(grant: string, middle: string, required: string)
    requires !(Resource(grant) == "*" && Action(grant) == Some("*"))
    requires Covers(grant, middle) && Covers(middle, required)
    ensures Covers(grant, required)
  {
    SplitAtFirst("*", [], ':');
  }

  /** So it composes for every grant the vocabulary permits, the bare wildcard included. */
  lemma CoversTransitive(grant: string, middle: string, required: string)
    requires IsValidScope(grant)
    requires Covers(grant, middle) && Covers(middle, required)
    ensures Covers(grant, required)
  {
    SplitAtFirst("*", [], ':');
    ComposesExactly(grant);
  }

  lemma CoversNotTransitiveOutsideVocabulary()
    ensures Covers("*:*", "*") && Covers("*", "merchants:read") && !Covers("*:*", "merchants:read")
  {
    PartsOf("*", "*");
    SplitAtFirst("*", [], ':');
    assert "*" + ":" + "*" == "*:*" && "merchants" + ":" + "read" == "merchants:read";
    var resource := "merchants";
    assert resource[0] == 'm';
    CoversByParts("*", "*", resource, "read");
  }

  lemma PartsOf(resource: string, action: string)
    requires ':' !in resource && ':' !in action
    ensures Split(resource + ":" + action, ':') == [resource, action]
  {
    SplitAtFirst(resource, action, ':');
    SplitAtFirst(action, [], ':');
  }

  /** On two-part scopes: the same resource, and the same action, any action, or read under write. */
  lemma CoversByParts(resource: string, action: string, neededResource: string, neededAction: string)
    requires ':' !in resource && ':' !in action && ':' !in neededResource && ':' !in neededAction
    ensures Covers(resource + ":" + action, neededResource + ":" + neededAction) <==>
              resource == neededResource
              && (action == neededAction || action == "*" || (action == "write" && neededAction == "read"))
  {
    PartsOf(resource, action);
    PartsOf(neededResource, neededAction);
    assert ':' in resource + ":" + action;
  }

  /** The vocabulary: the bare wildcard, or a lower-case resource with one of four actions. */
  lemma ValidExactly(resource: string, action: string)
    requires ':' !in resource && ':' !in action
    ensures IsValidScope("*")
    ensures IsValidScope(resource + ":" + action) <==>
              2 <= |resource| <= 41 && 'a' <= resource[0] <= 'z'
              && (forall i :: 0 <= i < |resource| ==> 'a' <= resource[i] <= 'z' || '0' <= resource[i] <= '9' || resource[i] == '-')
              && (action == "read" || action == "write" || action == "manage" || action == "*")
  {
    PartsOf(resource, action);
    assert ':' in resource + ":" + action;
  }

  /** Holding scopes that cover another list is at least as good as holding that list. */
  lemma SatisfyAllTransitive(held: seq<string>, middle: seq<string>, required: seq<string>)
    requires forall i :: 0 <= i < |held| ==> IsValidScope(held[i])
    requires ScopesSatisfyAll(held, middle) && ScopesSatisfyAll(middle, required)
    ensures ScopesSatisfyAll(held, required)
  {
    forall i | 0 <= i < |required| ensures ScopeSatisfies(held, required[i]) {
      var m :| 0 <= m < |middle| && Covers(middle[m], required[i]);
      assert ScopeSatisfies(held, middle[m]);
      var h :| 0 <= h < |held| && Covers(held[h], middle[m]);
      CoversTransitive(held[h], middle[m], required[i]);
    }
  }

  /** A smaller requirement, as a set, is easier to satisfy. */
  lemma SatisfyFewer(held: seq<string>, required: seq<string>, fewer: seq<string>)
    requires ScopesSatisfyAll(held, required)
    requires forall s :: s in fewer ==> s in required
    ensures ScopesSatisfyAll(held, fewer)
  {
    forall i | 0 <= i < |fewer| ensures ScopeSatisfies(held, fewer[i]) {
      assert fewer[i] in required;
    }
  }

  /** The least one may hold to satisfy a scope: for the bare wildcard, the wildcard of both parts. */
  function Least(scope: string): string { if scope == "*" then "*:*" else scope }

  function Weakest(required: seq<string>): (held: seq<string>)
    ensures |held| == |required| && forall i :: 0 <= i < |required| ==> held[i] == Least(required[i])
    ensures "*" !in required ==> held == required
  {
    seq(|required|, i requires 0 <= i < |required| => Least(required[i]))
  }

  lemma WildcardParts()
    ensures Split("*", ':') == ["*"] && Split("*:*", ':') == ["*", "*"]
  {
    SplitAtFirst("*", [], ':');
    PartsOf("*", "*");
    assert "*" + ":" + "*" == "*:*";
  }

  lemma LeastCovers(scope: string)
    ensures Covers(Least(scope), scope)
  {
    WildcardParts();
  }

  lemma WeakestSatisfies(required: seq<string>)
    ensures ScopesSatisfyAll(Weakest(required), required)
  {
    forall i | 0 <= i < |required| ensures ScopeSatisfies(Weakest(required), required[i]) {
      LeastCovers(required[i]);
      assert Covers(Weakest(required)[i], required[i]);
    }
  }

  /** Whatever covers a scope covers all that the least holding of it does. */
  lemma CoversThroughLeast(grant: string, middle: string, required: string)
    requires Covers(grant, middle) && Covers(Least(middle), required)
    ensures Covers(grant, required)
  {
    WildcardParts();
  }

  /** So the weakest holding decides for every other: what it satisfies, each of them does. */
  lemma SatisfyThroughWeakest(held: seq<string>, middle: seq<string>, required: seq<string>)
    requires ScopesSatisfyAll(held, middle) && ScopesSatisfyAll(Weakest(middle), required)
    ensures ScopesSatisfyAll(held, required)
  {
    forall i | 0 <= i < |required| ensures ScopeSatisfies(held, required[i]) {
      assert ScopeSatisfies(Weakest(middle), required[i]);
      var m :| 0 <= m < |middle| && Covers(Weakest(middle)[m], required[i]);
      assert ScopeSatisfies(held, middle[m]);
      var h :| 0 <= h < |held| && Covers(held[h], middle[m]);
      CoversThroughLeast(held[h], middle[m], required[i]);
    }
  }
}
