/** Structural comparison of two definitions of one API, and the version bump it requires. */
module Versioning {
  import opened Text
  import opened Catalog

  datatype ChangeKind =
    | OperationRemoved | OperationAdded | OperationDeprecated
    | PathChanged | VerbChanged
    | ScopeAdded | ScopeRemoved
    | ClassificationRaised | ClassificationLowered
    | AuthenticationChanged | IdempotencyChanged

  datatype Compatibility = Breaking | Compatible | Additive

  datatype Bump = Patch | Minor | Major

  /** A difference: what kind, and on which operation (none for the API as a whole). */
  datatype Change = Change(kind: ChangeKind, operationId: Option<string>)

  function CompatibilityOf(kind: ChangeKind): Compatibility {
    match kind
    case OperationAdded => Additive
    case OperationDeprecated => Compatible
    case ScopeRemoved => Compatible
    case ClassificationRaised => Compatible
    case _ => Breaking
  }

  function BumpRank(bump: Bump): nat {
    match bump
    case Patch => 1
    case Minor => 2
    case Major => 3
  }

  /** What the two versions actually represent; 0 when the version did not move forward. */
  function BumpBetween(from: Semver, to: Semver): nat {
    if CompareSemver(to, from) <= 0 then 0
    else if to.major > from.major then 3
    else if to.minor > from.minor then 2
    else 1
  }

  // --- what counts as a difference --------------------------------------------

  /** A required scope of `after` that `before` did not require. */
  predicate NewlyRequires(before: seq<string>, after: seq<string>) {
    exists s :: s in after && s !in before
  }

  /** How one operation, present in both definitions, differs. */
  predicate OperationDiffers(kind: ChangeKind, before: Operation, after: Operation, from: Definition, to: Definition) {
    match kind
    case PathChanged => before.path != after.path
    case VerbChanged => before.verb != after.verb
    case ScopeAdded => NewlyRequires(ScopesOf(before, from), ScopesOf(after, to))
    case ScopeRemoved => NewlyRequires(ScopesOf(after, to), ScopesOf(before, from))
    case ClassificationRaised => after.classification.Rank() > before.classification.Rank()
    case ClassificationLowered => after.classification.Rank() < before.classification.Rank()
    case IdempotencyChanged => before.idempotent != after.idempotent
    case OperationDeprecated => !before.deprecated && after.deprecated
    case _ => false
  }

  /** The differences between two definitions, stated without reference to how they are found. */
  predicate Differs(c: Change, from: Definition, to: Definition) {
    var f, t := OperationsById(from.operations), OperationsById(to.operations);
    match c.operationId
    case None => c.kind == AuthenticationChanged && from.authentication != to.authentication
    case Some(id) =>
      match c.kind
      case OperationRemoved => id in f && id !in t
      case OperationAdded => id !in f && id in t
      case _ => id in f && id in t && OperationDiffers(c.kind, f[id], t[id], from, to)
  }

  ghost predicate HasChange(how: Compatibility, from: Definition, to: Definition) {
    exists c :: Differs(c, from, to) && CompatibilityOf(c.kind) == how
  }

  ghost function RequiredBump(from: Definition, to: Definition): Bump {
    if HasChange(Breaking, from, to) then Major
    else if HasChange(Additive, from, to) then Minor
    else Patch
  }

  /** The declared version is at least the bump the differences require. */
  ghost predicate VersionSufficient(from: Definition, to: Definition) {
    BumpBetween(from.version, to.version) >= BumpRank(RequiredBump(from, to))
  }

  // --- what breaks, in the definitions' own fields -----------------------------

  /** The scopes a caller needs: the operation's own, or without any the API's. */
  function Needed(operation: Operation, api: Definition): seq<string> { if operation.scopes != [] then operation.scopes else api.scopes }

  /** One classification protects less than another. */
  predicate Below(x: Classification, y: Classification) {
    match y
    case PUBLIC => false
    case INTERNAL => x == PUBLIC
    case CONFIDENTIAL => x in {PUBLIC, INTERNAL}
    case RESTRICTED => x in {PUBLIC, INTERNAL, CONFIDENTIAL}
    case HIGHLY_RESTRICTED => x != HIGHLY_RESTRICTED
  }

  /** What a caller of the operation could rely on and no longer can. */
  predicate Breaks(before: Operation, after: Operation, from: Definition, to: Definition) {
    || after.path != before.path || after.verb != before.verb || after.idempotent != before.idempotent
    || Below(after.classification, before.classification)
    || NeedsMore(before, after, from, to)
  }

  /** Callers authenticate otherwise, or an operation they have is gone or breaks. */
  ghost predicate BreaksCallers(from: Definition, to: Definition) {
    var f, t := OperationsById(from.operations), OperationsById(to.operations);
    from.authentication != to.authentication || exists id :: id in f && (id !in t || Breaks(f[id], t[id], from, to))
  }

  ghost predicate AddsOperation(from: Definition, to: Definition) {
    exists id :: id in OperationsById(to.operations) && id !in OperationsById(from.operations)
  }

  lemma BelowIsRank(x: Classification, y: Classification)
    ensures Below(x, y) <==> x.Rank() < y.Rank()
    ensures [PUBLIC, INTERNAL, CONFIDENTIAL, RESTRICTED, HIGHLY_RESTRICTED][x.Rank()] == x
  {
  }

  predicate NeedsMore(before: Operation, after: Operation, from: Definition, to: Definition) {
    exists s :: s in Needed(after, to) && s !in Needed(before, from)
  }

  /** Every way one operation can differ, in its fields. */
  lemma OperationInFields(before: Operation, after: Operation, from: Definition, to: Definition)
    ensures OperationDiffers(PathChanged, before, after, from, to) <==> before.path != after.path
    ensures OperationDiffers(VerbChanged, before, after, from, to) <==> before.verb != after.verb
    ensures OperationDiffers(IdempotencyChanged, before, after, from, to) <==> before.idempotent != after.idempotent
    ensures OperationDiffers(OperationDeprecated, before, after, from, to) <==> after.deprecated && !before.deprecated
    ensures OperationDiffers(ClassificationLowered, before, after, from, to) <==> Below(after.classification, before.classification)
    ensures OperationDiffers(ClassificationRaised, before, after, from, to) <==> Below(before.classification, after.classification)
    ensures OperationDiffers(ScopeAdded, before, after, from, to) <==> NeedsMore(before, after, from, to)
    ensures OperationDiffers(ScopeRemoved, before, after, from, to) <==> NeedsMore(after, before, to, from)
    ensures forall kind :: kind in {OperationRemoved, OperationAdded, AuthenticationChanged} ==> !OperationDiffers(kind, before, after, from, to)
  {
    BelowIsRank(after.classification, before.classification);
    BelowIsRank(before.classification, after.classification);
    assert ScopesOf(before, from) == Needed(before, from) && ScopesOf(after, to) == Needed(after, to);
    hide Needed, ScopesOf;
  }

  /** Of them, these break a caller and the others do not. */
  lemma KindsThatBreak(kind: ChangeKind)
    ensures CompatibilityOf(kind) == Breaking <==>
              kind in {OperationRemoved, PathChanged, VerbChanged, ScopeAdded, ClassificationLowered, AuthenticationChanged, IdempotencyChanged}
  {
  }

  lemma BreaksExactly(before: Operation, after: Operation, from: Definition, to: Definition)
    ensures Breaks(before, after, from, to) <==>
              exists kind :: OperationDiffers(kind, before, after, from, to) && CompatibilityOf(kind) == Breaking
  {
    OperationInFields(before, after, from, to);
    forall kind { KindsThatBreak(kind); }
    assert Breaks(before, after, from, to) <==>
      (OperationDiffers(PathChanged, before, after, from, to) || OperationDiffers(VerbChanged, before, after, from, to)
       || OperationDiffers(IdempotencyChanged, before, after, from, to) || OperationDiffers(ClassificationLowered, before, after, from, to)
       || OperationDiffers(ScopeAdded, before, after, from, to));
    hide Breaks, OperationDiffers, CompatibilityOf;
  }

  lemma CallersBroken(from: Definition, to: Definition)
    requires BreaksCallers(from, to)
    ensures HasChange(Breaking, from, to)
  {
    var f, t := OperationsById(from.operations), OperationsById(to.operations);
    hide OperationsById, Breaks, OperationDiffers;
    if from.authentication != to.authentication {
      assert Differs(Change(AuthenticationChanged, None), from, to);
    } else {
      var id :| id in f && (id !in t || Breaks(f[id], t[id], from, to));
      if id !in t {
        assert Differs(Change(OperationRemoved, Some(id)), from, to);
      } else {
        BreaksExactly(f[id], t[id], from, to);
        var kind :| OperationDiffers(kind, f[id], t[id], from, to) && CompatibilityOf(kind) == Breaking;
        OperationInFields(f[id], t[id], from, to);
        assert Differs(Change(kind, Some(id)), from, to);
      }
    }
  }

  /** The differences are breaking exactly when they break callers. */
  lemma BreakingExactly(from: Definition, to: Definition)
    ensures HasChange(Breaking, from, to) <==> BreaksCallers(from, to)
  {
    var f, t := OperationsById(from.operations), OperationsById(to.operations);
    if BreaksCallers(from, to) { CallersBroken(from, to); }
    hide OperationsById, Breaks, OperationDiffers;
    if HasChange(Breaking, from, to) {
      var c :| Differs(c, from, to) && CompatibilityOf(c.kind) == Breaking;
      if c.operationId.Some? && c.operationId.value in f && c.operationId.value in t {
        BreaksExactly(f[c.operationId.value], t[c.operationId.value], from, to);
      }
    }
  }

  /** Every kind of change, in the fields of what is held under its id before and after. */
  lemma ChangesInFields(from: Definition, to: Definition, id: string, kind: ChangeKind)
    ensures var f, t := OperationsById(from.operations), OperationsById(to.operations);
            Differs(Change(kind, Some(id)), from, to) <==>
              if id in f && id in t then
                match kind
                case PathChanged => f[id].path != t[id].path
                case VerbChanged => f[id].verb != t[id].verb
                case IdempotencyChanged => f[id].idempotent != t[id].idempotent
                case OperationDeprecated => t[id].deprecated && !f[id].deprecated
                case ClassificationLowered => Below(t[id].classification, f[id].classification)
                case ClassificationRaised => Below(f[id].classification, t[id].classification)
                case ScopeAdded => NeedsMore(f[id], t[id], from, to)
                case ScopeRemoved => NeedsMore(t[id], f[id], to, from)
                case _ => false
              else (kind == OperationRemoved && id in f) || (kind == OperationAdded && id in t)
    ensures Differs(Change(kind, None), from, to) <==> kind == AuthenticationChanged && from.authentication != to.authentication
  {
    var f, t := OperationsById(from.operations), OperationsById(to.operations);
    if id in f && id in t { OperationInFields(f[id], t[id], from, to); }
    hide OperationsById, OperationDiffers, NeedsMore, Below;
  }

  /** The bump required is the major one if callers break, else the minor one if an operation is new, else a patch. */
  lemma RequiredBumpExactly(from: Definition, to: Definition)
    ensures RequiredBump(from, to) == if BreaksCallers(from, to) then Major else if AddsOperation(from, to) then Minor else Patch
  {
    BreakingExactly(from, to);
    hide BreaksCallers;
    if id :| id in OperationsById(to.operations) && id !in OperationsById(from.operations) {
      assert Differs(Change(OperationAdded, Some(id)), from, to) && CompatibilityOf(OperationAdded) == Additive;
    }
  }

  /** And the version moved far enough exactly when it is later, in its major if callers break, in its minor if an operation is new. */
  lemma SufficientExactly(from: Definition, to: Definition)
    ensures VersionSufficient(from, to) <==>
              var v, w := from.version, to.version;
              if BreaksCallers(from, to) then w.major > v.major
              else if AddsOperation(from, to) then w.major > v.major || (w.major == v.major && w.minor > v.minor)
              else w.major > v.major || (w.major == v.major && (w.minor > v.minor || (w.minor == v.minor && w.patch > v.patch)))
  {
    RequiredBumpExactly(from, to);
    hide BreaksCallers, AddsOperation, RequiredBump;
  }

  // --- the analysis -----------------------------------------------------------

  datatype Analysis = DifferentApis | Analysis(
    changes: seq<Change>,
    breaking: bool,
    requiredBump: Bump,
    versionSufficient: bool)

  /** `[...after].filter(s => !before.has(s))`, as a set. */
  function AddedScopes(before: seq<string>, after: seq<string>): (added: set<string>)
    ensures added != {} <==> NewlyRequires(before, after)
  {
    var added := set s | s in after && s !in before;
    assert added != {} ==> exists s :: s in added;
    assert forall s :: s in after && s !in before ==> s in added;
    added
  }

  /** The order in which one operation's checks are made. */
  function CheckOrder(kind: ChangeKind): nat {
    match kind
    case PathChanged => 0
    case VerbChanged => 1
    case ScopeAdded => 2
    case ScopeRemoved => 3
    case ClassificationRaised => 4
    case ClassificationLowered => 5
    case IdempotencyChanged => 6
    case _ => 7
  }

  /** Exactly the differences of one operation among the checks made so far, each once. */
  ghost predicate Found(changes: seq<Change>, id: string, checks: nat,
                        before: Operation, after: Operation, from: Definition, to: Definition)
  {
    && (forall i, j :: 0 <= i < j < |changes| ==> changes[i] != changes[j])
    && (forall c :: c in changes <==>
          c.operationId == Some(id) && CheckOrder(c.kind) < checks && OperationDiffers(c.kind, before, after, from, to))
  }

  /** One `if (differs) changes.push(...)`. */
  method Consider(changes: seq<Change>, kind: ChangeKind, holds: bool,
                  id: string, before: Operation, after: Operation, from: Definition, to: Definition)
    returns (r: seq<Change>)
    requires Found(changes, id, CheckOrder(kind), before, after, from, to)
    requires holds == OperationDiffers(kind, before, after, from, to)
    requires kind !in {OperationRemoved, OperationAdded, AuthenticationChanged}
    ensures Found(r, id, CheckOrder(kind) + 1, before, after, from, to)
  {
    r := changes;
    if holds { r := r + [Change(kind, Some(id))]; }
    assert forall k :: CheckOrder(k) == CheckOrder(kind) && k != kind ==> !OperationDiffers(k, before, after, from, to);
  }

  /** Path, verb and scopes of an operation that is in both definitions. */
  method CompareContract(id: string, before: Operation, after: Operation, from: Definition, to: Definition)
    returns (changes: seq<Change>)
    ensures Found(changes, id, 4, before, after, from, to)
  {
    changes := [];
    changes := Consider(changes, PathChanged, before.path != after.path, id, before, after, from, to);
    changes := Consider(changes, VerbChanged, before.verb != after.verb, id, before, after, from, to);
    var added := AddedScopes(ScopesOf(before, from), ScopesOf(after, to));
    changes := Consider(changes, ScopeAdded, added != {}, id, before, after, from, to);
    var removed := AddedScopes(ScopesOf(after, to), ScopesOf(before, from));
    changes := Consider(changes, ScopeRemoved, removed != {}, id, before, after, from, to);
  }

  /** The checks made on one operation that is in both definitions, in the source's order. */
  method CompareOperation(id: string, before: Operation, after: Operation, from: Definition, to: Definition)
    returns (changes: seq<Change>)
    ensures Found(changes, id, 8, before, after, from, to)
  {
    changes := CompareContract(id, before, after, from, to);
    var moved := before.classification != after.classification;
    var raised := after.classification.Rank() > before.classification.Rank();
    changes := Consider(changes, ClassificationRaised, moved && raised, id, before, after, from, to);
    changes := Consider(changes, ClassificationLowered, moved && !raised, id, before, after, from, to);
    changes := Consider(changes, IdempotencyChanged, before.idempotent != after.idempotent, id, before, after, from, to);
    changes := Consider(changes, OperationDeprecated, !before.deprecated && after.deprecated, id, before, after, from, to);
  }

  /** Exactly the differences on the API itself and on the operations visited so far, each once. */
  ghost predicate Visited(changes: seq<Change>, ids: set<string>, from: Definition, to: Definition) {
    && (forall i, j :: 0 <= i < j < |changes| ==> changes[i] != changes[j])
    && (forall c :: c in changes <==>
          Differs(c, from, to) && (c.operationId.None? || c.operationId.value in ids))
  }

  /** Appending what was found on a new operation. */
  lemma Visit(changes: seq<Change>, found: seq<Change>, ids: set<string>, id: string, from: Definition, to: Definition)
    requires Visited(changes, ids, from, to) && id !in ids
    requires forall i, j :: 0 <= i < j < |found| ==> found[i] != found[j]
    requires forall c :: c in found <==> Differs(c, from, to) && c.operationId == Some(id)
    ensures Visited(changes + found, ids + {id}, from, to)
  {
    forall i, j | 0 <= i < j < |changes + found| ensures (changes + found)[i] != (changes + found)[j] {
      if i < |changes| <= j {
        assert changes[i] in changes && found[j - |changes|] in found;
      }
    }
  }

  lemma FoundIsAll(found: seq<Change>, id: string, from: Definition, to: Definition)
    requires id in OperationsById(from.operations) && id in OperationsById(to.operations)
    requires Found(found, id, 8, OperationsById(from.operations)[id], OperationsById(to.operations)[id], from, to)
    ensures forall c :: c in found <==> Differs(c, from, to) && c.operationId == Some(id)
  {
  }

  lemma VisitAdded(changes: seq<Change>, ids: set<string>, id: string, from: Definition, to: Definition)
    requires Visited(changes, ids, from, to) && id !in ids
    requires id !in OperationsById(from.operations) && id in OperationsById(to.operations)
    ensures Visited(changes + [Change(OperationAdded, Some(id))], ids + {id}, from, to)
  {
    hide Visited;
    Visit(changes, [Change(OperationAdded, Some(id))], ids, id, from, to);
  }

  ghost function Elements(s: seq<string>): (r: set<string>)
    ensures forall x :: x in r <==> x in s
  {
    set x | x in s
  }

  lemma NextElement(s: seq<string>, i: nat)
    requires i < |s|
    ensures Elements(s[..i + 1]) == Elements(s[..i]) + {s[i]}
    ensures (forall a, b :: 0 <= a < b < |s| ==> s[a] != s[b]) ==> s[i] !in Elements(s[..i])
  {
    assert s[..i + 1] == s[..i] + [s[i]];
  }

  /** The first loop: every operation of the old definition. */
  method VisitOld(changes: seq<Change>, from: Definition, to: Definition) returns (r: seq<Change>)
    requires Visited(changes, {}, from, to)
    ensures Visited(r, OperationsById(from.operations).Keys, from, to)
  {
    var fromOperations, toOperations := OperationMap(from.operations), OperationMap(to.operations);
    var keys := fromOperations.keys;
    r := changes;
    ghost var ids := {};
    for i := 0 to |keys|
      invariant ids == Elements(keys[..i])
      invariant Visited(r, ids, from, to)
    {
      var id := keys[i];
      var before, after := fromOperations.vals[id], toOperations.Get(id);
      var found := [Change(OperationRemoved, Some(id))];
      if after.Some? {
        found := CompareOperation(id, before, after.value, from, to);
        FoundIsAll(found, id, from, to);
      }
      Visit(r, found, ids, id, from, to);
      r, ids := r + found, ids + {id};
      NextElement(keys, i);
    }
    assert keys[..|keys|] == keys;
  }

  lemma NextAdded(base: set<string>, s: seq<string>, i: nat)
    requires i < |s| && forall a, b :: 0 <= a < b < |s| ==> s[a] != s[b]
    ensures var ids := base + Elements(s[..i]);
            && base + Elements(s[..i + 1]) == (if s[i] in base then ids else ids + {s[i]})
            && (s[i] !in base ==> s[i] !in ids)
  {
    NextElement(s, i);
  }

  /** The second loop: operations only the new definition has. */
  method VisitNew(changes: seq<Change>, from: Definition, to: Definition) returns (r: seq<Change>)
    requires Visited(changes, OperationsById(from.operations).Keys, from, to)
    ensures Visited(r, OperationsById(from.operations).Keys + OperationsById(to.operations).Keys, from, to)
  {
    var fromOperations, toOperations := OperationMap(from.operations), OperationMap(to.operations);
    var keys := toOperations.keys;
    r := changes;
    ghost var base := fromOperations.vals.Keys;
    assert keys[..0] == [] && keys[..|keys|] == keys && base + Elements([]) == base;
    hide Visited, Differs, OperationsById, OperationMap;
    for i := 0 to |keys|
      invariant Visited(r, base + Elements(keys[..i]), from, to)
    {
      var id := keys[i];
      NextAdded(base, keys, i);
      if !fromOperations.Has(id) {
        VisitAdded(r, base + Elements(keys[..i]), id, from, to);
        r := r + [Change(OperationAdded, Some(id))];
      }
    }
    assert Elements(keys) == toOperations.vals.Keys;
  }

  method AnalyseCompatibility(from: Definition, to: Definition) returns (r: Analysis)
    ensures r.DifferentApis? <==> from.apiId != to.apiId
    ensures r.Analysis? ==>
              // every difference is reported, nothing else is, and none is reported twice
              && (forall c :: c in r.changes <==> Differs(c, from, to))
              && (forall i, j :: 0 <= i < j < |r.changes| ==> r.changes[i] != r.changes[j])
              && r.breaking == HasChange(Breaking, from, to)
              && r.requiredBump == RequiredBump(from, to)
              && r.versionSufficient == VersionSufficient(from, to)
    ensures r.Analysis? ==>
              && (r.breaking <==> BreaksCallers(from, to))
              && (r.requiredBump == if BreaksCallers(from, to) then Major else if AddsOperation(from, to) then Minor else Patch)
  {
    RequiredBumpExactly(from, to);
    BreakingExactly(from, to);
    if from.apiId != to.apiId { return DifferentApis; }
    var changes: seq<Change> := [];
    if from.authentication != to.authentication {
      changes := [Change(AuthenticationChanged, None)];
    }
    changes := VisitOld(changes, from, to);
    changes := VisitNew(changes, from, to);
    r := Summarise(changes, from, to);
  }

  method Summarise(changes: seq<Change>, from: Definition, to: Definition) returns (r: Analysis)
    requires forall c :: c in changes <==> Differs(c, from, to)
    ensures r.Analysis? && r.changes == changes
    ensures r.breaking == HasChange(Breaking, from, to)
    ensures r.requiredBump == RequiredBump(from, to)
    ensures r.versionSufficient == VersionSufficient(from, to)
  {
    var breaking := exists i :: 0 <= i < |changes| && CompatibilityOf(changes[i].kind) == Breaking;
    var additive := exists i :: 0 <= i < |changes| && CompatibilityOf(changes[i].kind) == Additive;
    Reported(changes, Breaking, from, to);
    Reported(changes, Additive, from, to);
    var requiredBump := if breaking then Major else if additive then Minor else Patch;
    return Analysis(changes, breaking, requiredBump,
                    BumpBetween(from.version, to.version) >= BumpRank(requiredBump));
  }

  lemma Reported(changes: seq<Change>, how: Compatibility, from: Definition, to: Definition)
    requires forall c :: c in changes <==> Differs(c, from, to)
    ensures (exists i :: 0 <= i < |changes| && CompatibilityOf(changes[i].kind) == how) <==> HasChange(how, from, to)
  {
    if i :| 0 <= i < |changes| && CompatibilityOf(changes[i].kind) == how {
      assert changes[i] in changes;
    }
    if HasChange(how, from, to) {
      var c :| Differs(c, from, to) && CompatibilityOf(c.kind) == how;
      assert c in changes;
    }
  }
}
