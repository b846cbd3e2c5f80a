/** Accounts: what a balance means, which postings each status admits, and the overdraft bound. */
module Accounts {
  import opened Text
  import opened JsMap

  datatype Direction = Debit | Credit {
    function Other(): Direction { if Debit? then Credit else Debit }
  }

  datatype Class = Asset | Liability | Equity | Revenue | Expense {
    function NormalSide(): Direction { if Asset? || Expense? then Debit else Credit }
  }

  datatype AccountType = Customer | Merchant | System | Settlement | Suspense | Fee | Reserve | General {
    function Class(): Class {
      match this
      case System => Asset
      case General => Asset
      case Fee => Revenue
      case _ => Liability
    }
  }

  datatype Status = Active | Frozen | Blocked | Closed

  datatype Account = Account(
    id: string,
    organizationId: Option<string>,
    code: string,
    kind: AccountType,
    cls: Class,
    status: Status,
    allowNegative: bool,
    overdraftLimit: Option<int>)

  /** The ledger reports debits minus credits; an account reads that on its normal side. */
  function NormalBalance(cls: Class, raw: int): int { if cls.NormalSide().Debit? then raw else -raw }

  function CanPost(a: Account, d: Direction): bool {
    match a.status
    case Active => true
    case Closed => false
    case Blocked => false
    case Frozen => d == a.cls.NormalSide().Other()
  }

  function WithinOverdraft(a: Account, balanceAfter: int): bool {
    if balanceAfter >= 0 then true
    else if !a.allowNegative then false
    else a.overdraftLimit.None? || -balanceAfter <= a.overdraftLimit.value
  }

  /** How far below zero an account may go; a negative limit allows nothing. */
  function Allowance(a: Account): nat {
    if a.allowNegative && a.overdraftLimit.Some? && a.overdraftLimit.value > 0 then a.overdraftLimit.value else 0
  }

  /** The check is one bound on the balance, unless going negative is allowed without a limit. */
  lemma OverdraftIsABound(a: Account, balance: int)
    ensures WithinOverdraft(a, balance) <==> (a.allowNegative && a.overdraftLimit.None?) || balance >= -(Allowance(a) as int)
  {
    if balance < 0 && a.allowNegative && a.overdraftLimit.Some? {
      assert a.overdraftLimit.value <= 0 ==> Allowance(a) == 0;
    }
  }

  // --- postings ---------------------------------------------------------------

  /** A line of a journal: a positive amount to one side of one account. */
  datatype Line = Line(accountId: string, direction: Direction, amount: nat)

  function Signed(l: Line): int { var amount: int := l.amount; if l.direction.Debit? then amount else -amount }

  /** What a journal adds to one account's raw balance. */
  function Effect(lines: seq<Line>, id: string): int {
    if lines == [] then 0
    else
      var l := lines[|lines| - 1];
      Effect(lines[..|lines| - 1], id) + if l.accountId == id then Signed(l) else 0
  }

  /** Debits minus credits over the whole journal; a journal balances when this is zero. */
  function Net(lines: seq<Line>): int {
    if lines == [] then 0 else Net(lines[..|lines| - 1]) + Signed(lines[|lines| - 1])
  }

  datatype State = State(accounts: JsMap<string, Account>, raw: map<string, int>)

  function RawOf(raw: map<string, int>, id: string): int { if id in raw then raw[id] else 0 }

  function Find(accounts: JsMap<string, Account>, id: string, organizationId: Option<string>): Option<Account> {
    if accounts.Has(id) && accounts.vals[id].organizationId == organizationId then Some(accounts.vals[id]) else None
  }

  function Balance(s: State, a: Account): int { NormalBalance(a.cls, RawOf(s.raw, a.id)) }

  /** The balance a journal would leave an account with, in the account's own terms. */
  function BalanceAfter(s: State, lines: seq<Line>, a: Account): int {
    NormalBalance(a.cls, RawOf(s.raw, a.id) + Effect(lines, a.id))
  }

  /** Every line may post, and no account it touches would end past its overdraft. */
  predicate Admits(s: State, lines: seq<Line>, organizationId: Option<string>) {
    && Net(lines) == 0
    && forall i :: 0 <= i < |lines| ==>
         var a := Find(s.accounts, lines[i].accountId, organizationId);
         a.Some? && CanPost(a.value, lines[i].direction) && WithinOverdraft(a.value, BalanceAfter(s, lines, a.value))
  }

  function Posted(raw: map<string, int>, lines: seq<Line>): map<string, int> {
    if lines == [] then raw
    else
      var before, l := Posted(raw, lines[..|lines| - 1]), lines[|lines| - 1];
      before[l.accountId := RawOf(before, l.accountId) + Signed(l)]
  }

  lemma {:induction false} PostedIsEffect(raw: map<string, int>, lines: seq<Line>, id: string)
    ensures RawOf(Posted(raw, lines), id) == RawOf(raw, id) + Effect(lines, id)
  {
    if lines != [] { PostedIsEffect(raw, lines[..|lines| - 1], id); }
  }

  // --- the service ------------------------------------------------------------

  datatype Error = CodeTaken | Invalid | NotFound | NotEmpty | AccountClosed | NeedsReason | NotPostable

  datatype Outcome = Ok(account: Account) | Failed(error: Error)

  datatype NewAccount = NewAccount(
    organizationId: Option<string>, code: string, kind: AccountType, cls: Option<Class>,
    allowNegative: bool, overdraftLimit: Option<int>)

  /** The schema's two rules across fields: the class is the type's, and a limit needs permission. */
  predicate Fits(a: Account) {
    (a.kind.General? || a.cls == a.kind.Class()) && (a.overdraftLimit.Some? ==> a.allowNegative)
  }

  function Opened(i: NewAccount, id: string): Account {
    Account(id, i.organizationId, i.code, i.kind, if i.cls.Some? then i.cls.value else i.kind.Class(), Active,
            i.allowNegative, i.overdraftLimit)
  }

  predicate CodeInUse(accounts: JsMap<string, Account>, code: string, organizationId: Option<string>) {
    exists k :: k in accounts.vals && accounts.vals[k].code == code && accounts.vals[k].organizationId == organizationId
  }

  function Open(s: State, i: NewAccount, id: string): (r: (State, Outcome))
    requires s.accounts.Valid()
    ensures r.0.accounts.Valid()
  {
    if CodeInUse(s.accounts, i.code, i.organizationId) then (s, Failed(CodeTaken))
    else if !Fits(Opened(i, id)) then (s, Failed(Invalid))
    else (s.(accounts := s.accounts.Set(id, Opened(i, id))), Ok(Opened(i, id)))
  }

  function SetStatus(s: State, id: string, organizationId: Option<string>, status: Status, reason: string): (r: (State, Outcome))
    requires s.accounts.Valid()
    ensures r.0.accounts.Valid()
  {
    match Find(s.accounts, id, organizationId)
    case None => (s, Failed(NotFound))
    case Some(a) =>
      if a.status.Closed? then (s, Failed(AccountClosed))
      else if Trim(reason) == "" then (s, Failed(NeedsReason))
      else (s.(accounts := s.accounts.Set(id, a.(status := status))), Ok(a.(status := status)))
  }

  function Close(s: State, id: string, organizationId: Option<string>): (r: (State, Outcome))
    requires s.accounts.Valid()
    ensures r.0.accounts.Valid()
  {
    match Find(s.accounts, id, organizationId)
    case None => (s, Failed(NotFound))
    case Some(a) =>
      if Balance(s, a) != 0 then (s, Failed(NotEmpty))
      else (s.(accounts := s.accounts.Set(id, a.(status := Closed))), Ok(a.(status := Closed)))
  }

  class InMemoryAccountStore {
    var accounts: JsMap<string, Account>

    constructor ()
      ensures accounts == Empty()
    {
      accounts := Empty();
    }

    method Create(a: Account)
      requires accounts.Valid()
      modifies this
      ensures accounts == old(accounts).Set(a.id, a)
    {
      accounts := accounts.Set(a.id, a);
    }

    method FindByCode(code: string, organizationId: Option<string>) returns (found: Option<Account>)
      requires accounts.Valid()
      ensures found.Some? <==> CodeInUse(accounts, code, organizationId)
      ensures found.Some? ==> found.value.code == code && found.value.organizationId == organizationId
    {
      var keys := accounts.keys;
      for i := 0 to |keys|
        invariant forall j :: 0 <= j < i ==>
                    !(accounts.vals[keys[j]].code == code && accounts.vals[keys[j]].organizationId == organizationId)
      {
        var a := accounts.vals[keys[i]];
        if a.code == code && a.organizationId == organizationId { return Some(a); }
      }
      assert forall k :: k in accounts.vals ==> k in keys;
      return None;
    }

    method Update(id: string, status: Status) returns (updated: Option<Account>)
      requires accounts.Valid()
      modifies this
      ensures updated == if old(accounts).Has(id) then Some(old(accounts).vals[id].(status := status)) else None
      ensures accounts == if updated.Some? then old(accounts).Set(id, updated.value) else old(accounts)
    {
      if !accounts.Has(id) { return None; }
      updated := Some(accounts.vals[id].(status := status));
      accounts := accounts.Set(id, updated.value);
    }
  }

  class Ledger {
    var raw: map<string, int>

    constructor ()
      ensures raw == map[]
    {
      raw := map[];
    }

    method Post(lines: seq<Line>)
      modifies this
      ensures raw == Posted(old(raw), lines)
    {
      for i := 0 to |lines|
        invariant raw == Posted(old(raw), lines[..i])
      {
        raw := raw[lines[i].accountId := RawOf(raw, lines[i].accountId) + Signed(lines[i])];
        assert lines[..i + 1][..i] == lines[..i];
      }
      assert lines[..|lines|] == lines;
    }
  }

  class AccountService {
    const store: InMemoryAccountStore
    const ledger: Ledger

    constructor (store: InMemoryAccountStore, ledger: Ledger)
      ensures this.store == store && this.ledger == ledger
    {
      this.store := store;
      this.ledger := ledger;
    }

    ghost function Contents(): State
      reads this, store, ledger
    {
      State(store.accounts, ledger.raw)
    }

    method OpenAccount(i: NewAccount, id: string) returns (r: Outcome)
      requires store.accounts.Valid()
      modifies store
      ensures (Contents(), r) == Open(old(Contents()), i, id)
    {
      var existing := store.FindByCode(i.code, i.organizationId);
      if existing.Some? { return Failed(CodeTaken); }
      var account := Opened(i, id);
      if !Fits(account) { return Failed(Invalid); }
      store.Create(account);
      return Ok(account);
    }

    method ChangeStatus(id: string, organizationId: Option<string>, status: Status, reason: string) returns (r: Outcome)
      requires store.accounts.Valid()
      modifies store
      ensures (Contents(), r) == SetStatus(old(Contents()), id, organizationId, status, reason)
    {
      var found := Find(store.accounts, id, organizationId);
      if found.None? { return Failed(NotFound); }
      if found.value.status.Closed? { return Failed(AccountClosed); }
      if Trim(reason) == "" { return Failed(NeedsReason); }
      var updated := store.Update(id, status);
      return if updated.Some? then Ok(updated.value) else Failed(NotFound);
    }

    method CloseAccount(id: string, organizationId: Option<string>) returns (r: Outcome)
      requires store.accounts.Valid()
      modifies store
      ensures (Contents(), r) == Close(old(Contents()), id, organizationId)
    {
      var found := Find(store.accounts, id, organizationId);
      if found.None? { return Failed(NotFound); }
      if NormalBalance(found.value.cls, RawOf(ledger.raw, found.value.id)) != 0 { return Failed(NotEmpty); }
      var updated := store.Update(id, Closed);
      return if updated.Some? then Ok(updated.value) else Failed(NotFound);
    }

    method AssertCanPost(id: string, organizationId: Option<string>, direction: Direction) returns (r: Outcome)
      ensures r.Ok? <==> Find(store.accounts, id, organizationId).Some? && CanPost(store.accounts.vals[id], direction)
      ensures r.Ok? ==> r.account == store.accounts.vals[id]
      ensures r.Failed? ==> (r.error.NotFound? <==> Find(store.accounts, id, organizationId).None?)
    {
      var found := Find(store.accounts, id, organizationId);
      if found.None? { return Failed(NotFound); }
      if !CanPost(found.value, direction) { return Failed(NotPostable); }
      return Ok(found.value);
    }
  }

  // --- any run ----------------------------------------------------------------

  datatype Op =
    | DoOpen(i: NewAccount, id: string)
    | DoSetStatus(id: string, organizationId: Option<string>, status: Status, reason: string)
    | DoClose(id: string, organizationId: Option<string>)
    | DoPost(lines: seq<Line>, organizationId: Option<string>)

  /** `setStatus` is only ever asked for the three statuses that are not closed. */
  predicate Wellformed(s: State, op: Op) {
    (op.DoOpen? ==> op.id !in s.accounts.vals) && (op.DoSetStatus? ==> !op.status.Closed?)
  }

  function Step(s: State, op: Op): (t: State)
    requires s.accounts.Valid()
    ensures t.accounts.Valid()
  {
    match op
    case DoOpen(i, id) => Open(s, i, id).0
    case DoSetStatus(id, organizationId, status, reason) => SetStatus(s, id, organizationId, status, reason).0
    case DoClose(id, organizationId) => Close(s, id, organizationId).0
    case DoPost(lines, organizationId) => if Admits(s, lines, organizationId) then s.(raw := Posted(s.raw, lines)) else s
  }

  function RunFrom(s: State, ops: seq<Op>): (t: State)
    requires s.accounts.Valid()
    ensures t.accounts.Valid()
  {
    if ops == [] then s else Step(RunFrom(s, ops[..|ops| - 1]), ops[|ops| - 1])
  }

  ghost predicate WellformedRun(s: State, ops: seq<Op>)
    requires s.accounts.Valid()
  {
    forall i :: 0 <= i < |ops| ==> Wellformed(RunFrom(s, ops[..i]), ops[i])
  }

  function SumRaw(keys: seq<string>, raw: map<string, int>): int {
    if keys == [] then 0 else SumRaw(keys[..|keys| - 1], raw) + RawOf(raw, keys[|keys| - 1])
  }

  ghost predicate Invariant(s: State) {
    && s.accounts.Valid()
    && (forall k :: k in s.accounts.vals ==> AccountSound(s.accounts.vals[k], k, RawOf(s.raw, k)))
    && (forall k :: k in s.raw ==> k in s.accounts.vals)
    && UniqueCodes(s.accounts.vals)
    && SumRaw(s.accounts.keys, s.raw) == 0
  }

  /** No two accounts of a tenant answer to one code. */
  ghost predicate UniqueCodes(vals: map<string, Account>) {
    forall j, k ::
      (j in vals && k in vals && vals[j].code == vals[k].code && vals[j].organizationId == vals[k].organizationId) ==> j == k
  }

  /** Under its own id, on its type's side, empty when closed, and inside its overdraft. */
  predicate AccountSound(a: Account, id: string, raw: int) {
    && a.id == id
    && Fits(a)
    && (a.status.Closed? ==> raw == 0)
    && WithinOverdraft(a, NormalBalance(a.cls, raw))
  }

  lemma {:induction false} EffectOfNone(lines: seq<Line>, id: string)
    requires forall i :: 0 <= i < |lines| ==> lines[i].accountId != id
    ensures Effect(lines, id) == 0
  {
    if lines != [] { EffectOfNone(lines[..|lines| - 1], id); }
  }

  /** Lines that all go one way move the balance that way. */
  lemma {:induction false} EffectOneWay(lines: seq<Line>, a: Account, d: Direction)
    requires forall i :: 0 <= i < |lines| && lines[i].accountId == a.id ==> lines[i].direction == d
    ensures d == a.cls.NormalSide().Other() ==> NormalBalance(a.cls, Effect(lines, a.id)) <= 0
  {
    if lines != [] { EffectOneWay(lines[..|lines| - 1], a, d); }
  }

  lemma {:induction false} SumRawUpdate(keys: seq<string>, raw: map<string, int>, id: string, change: int)
    requires forall i, j :: 0 <= i < j < |keys| ==> keys[i] != keys[j]
    ensures SumRaw(keys, raw[id := RawOf(raw, id) + change]) == SumRaw(keys, raw) + if id in keys then change else 0
  {
    if keys != [] {
      var front, last := keys[..|keys| - 1], keys[|keys| - 1];
      SumRawUpdate(front, raw, id, change);
      assert keys == front + [last];
    }
  }

  /** A journal adds its net to the books: nothing, when it balances. */
  lemma {:induction false} PostingKeepsTotal(keys: seq<string>, raw: map<string, int>, lines: seq<Line>)
    requires forall i, j :: 0 <= i < j < |keys| ==> keys[i] != keys[j]
    requires forall i :: 0 <= i < |lines| ==> lines[i].accountId in keys
    ensures SumRaw(keys, Posted(raw, lines)) == SumRaw(keys, raw) + Net(lines)
  {
    if lines != [] {
      var front, l := lines[..|lines| - 1], lines[|lines| - 1];
      PostingKeepsTotal(keys, raw, front);
      SumRawUpdate(keys, Posted(raw, front), l.accountId, Signed(l));
    }
  }

  lemma {:induction false} PostedKeys(raw: map<string, int>, lines: seq<Line>)
    ensures forall k :: k in Posted(raw, lines) ==> k in raw || exists i :: 0 <= i < |lines| && lines[i].accountId == k
  {
    if lines != [] {
      var front := lines[..|lines| - 1];
      PostedKeys(raw, front);
      forall k | k in Posted(raw, lines) && k !in raw ensures exists i :: 0 <= i < |lines| && lines[i].accountId == k {
        if k in Posted(raw, front) {
          var i :| 0 <= i < |front| && front[i].accountId == k;
          assert lines[i].accountId == k;
        } else {
          assert lines[|lines| - 1].accountId == k;
        }
      }
    }
  }

  /** What an admitted journal may do to one account, by its status. */
  lemma PostingRespects(s: State, lines: seq<Line>, organizationId: Option<string>, id: string)
    requires Invariant(s) && Admits(s, lines, organizationId) && id in s.accounts.vals
    ensures var a := s.accounts.vals[id]; var raw := RawOf(Posted(s.raw, lines), id);
            && (a.status.Closed? || a.status.Blocked? ==> raw == RawOf(s.raw, id))
            && (a.status.Frozen? ==> NormalBalance(a.cls, raw) <= Balance(s, a))
            && WithinOverdraft(a, NormalBalance(a.cls, raw))
  {
    var a := s.accounts.vals[id];
    PostedIsEffect(s.raw, lines, id);
    assert AccountSound(a, id, RawOf(s.raw, id));
    if forall i :: 0 <= i < |lines| ==> lines[i].accountId != id {
      EffectOfNone(lines, id);
    } else {
      var i :| 0 <= i < |lines| && lines[i].accountId == id;
      assert Find(s.accounts, lines[i].accountId, organizationId) == Some(a);
      if a.status.Frozen? { EffectOneWay(lines, a, a.cls.NormalSide().Other()); }
    }
  }

  lemma PostKeeps(s: State, lines: seq<Line>, organizationId: Option<string>)
    requires Invariant(s) && Admits(s, lines, organizationId)
    ensures Invariant(s.(raw := Posted(s.raw, lines)))
  {
    forall k | k in s.accounts.vals ensures AccountSound(s.accounts.vals[k], k, RawOf(Posted(s.raw, lines), k)) {
      PostingRespects(s, lines, organizationId, k);
      assert AccountSound(s.accounts.vals[k], k, RawOf(s.raw, k));
    }
    forall i | 0 <= i < |lines| ensures lines[i].accountId in s.accounts.keys {
      assert Find(s.accounts, lines[i].accountId, organizationId).Some?;
    }
    PostingKeepsTotal(s.accounts.keys, s.raw, lines);
    PostedKeys(s.raw, lines);
  }

  lemma {:induction false} SumRawAgrees(keys: seq<string>, raw: map<string, int>, more: seq<string>)
    requires forall k :: k in more ==> k !in raw
    ensures SumRaw(keys + more, raw) == SumRaw(keys, raw)
  {
    if more == [] {
      assert keys + more == keys;
    } else {
      assert (keys + more)[..|keys + more| - 1] == keys + more[..|more| - 1];
      SumRawAgrees(keys, raw, more[..|more| - 1]);
    }
  }

  lemma OpenKeeps(s: State, i: NewAccount, id: string)
    requires Invariant(s) && id !in s.accounts.vals
    ensures Invariant(Open(s, i, id).0)
  {
    if Open(s, i, id).1.Ok? {
      SumRawAgrees(s.accounts.keys, s.raw, [id]);
      assert AccountSound(Opened(i, id), id, RawOf(s.raw, id));
      CodesStayUnique(s.accounts, i, id);
      hide UniqueCodes, CodeInUse, AccountSound, SumRaw, Opened;
    }
  }

  lemma CodesStayUnique(accounts: JsMap<string, Account>, i: NewAccount, id: string)
    requires UniqueCodes(accounts.vals) && !CodeInUse(accounts, i.code, i.organizationId)
    ensures UniqueCodes(accounts.vals[id := Opened(i, id)])
  {
  }

  lemma StatusSound(a: Account, id: string, raw: int, status: Status)
    requires AccountSound(a, id, raw) && (status.Closed? ==> raw == 0)
    ensures AccountSound(a.(status := status), id, raw)
  {
  }

  lemma StatusCodes(vals: map<string, Account>, id: string, status: Status)
    requires UniqueCodes(vals) && id in vals
    ensures UniqueCodes(vals[id := vals[id].(status := status)])
  {
  }

  /** Replacing an account by one that differs only in status. */
  lemma StatusKeeps(s: State, id: string, status: Status)
    requires Invariant(s) && id in s.accounts.vals && (status.Closed? ==> RawOf(s.raw, id) == 0)
    ensures Invariant(s.(accounts := s.accounts.Set(id, s.accounts.vals[id].(status := status))))
  {
    StatusCodes(s.accounts.vals, id, status);
    StatusSound(s.accounts.vals[id], id, RawOf(s.raw, id), status);
    hide SumRaw, AccountSound, RawOf, UniqueCodes;
  }

  lemma SetStatusKeeps(s: State, id: string, organizationId: Option<string>, status: Status, reason: string)
    requires Invariant(s) && !status.Closed?
    ensures Invariant(SetStatus(s, id, organizationId, status, reason).0)
  {
    assert s.accounts.Valid();
    hide Invariant;
    if SetStatus(s, id, organizationId, status, reason).1.Ok? { StatusKeeps(s, id, status); }
  }

  lemma CloseKeeps(s: State, id: string, organizationId: Option<string>)
    requires Invariant(s)
    ensures Invariant(Close(s, id, organizationId).0)
  {
    assert s.accounts.Valid();
    if Close(s, id, organizationId).1.Ok? {
      assert AccountSound(s.accounts.vals[id], id, RawOf(s.raw, id));
      hide Invariant;
      StatusKeeps(s, id, Closed);
    }
  }

  lemma StepKeeps(s: State, op: Op)
    requires Invariant(s) && Wellformed(s, op)
    ensures Invariant(Step(s, op))
  {
    assert s.accounts.Valid();
    hide Invariant, Open, Close, SetStatus, Admits, Posted;
    match op
    case DoOpen(i, id) => OpenKeeps(s, i, id);
    case DoSetStatus(id, organizationId, status, reason) => SetStatusKeeps(s, id, organizationId, status, reason);
    case DoClose(id, organizationId) => CloseKeeps(s, id, organizationId);
    case DoPost(lines, organizationId) =>
      if Admits(s, lines, organizationId) { PostKeeps(s, lines, organizationId); }
  }

  /** Any run keeps every account inside its overdraft and the books in balance. */
  lemma {:induction false} RunKeeps(s: State, ops: seq<Op>)
    requires Invariant(s) && WellformedRun(s, ops)
    ensures Invariant(RunFrom(s, ops))
  {
    if ops != [] {
      assert s.accounts.Valid();
      hide Invariant, Step, Wellformed, WellformedRun;
      var front := ops[..|ops| - 1];
      RunStep(s, ops);
      RunKeeps(s, front);
      StepKeeps(RunFrom(s, front), ops[|ops| - 1]);
    }
  }

  /** So they are after any run that starts from nothing. */
  lemma FromEmptyBooks(ops: seq<Op>)
    requires WellformedRun(State(Empty(), map[]), ops)
    ensures Invariant(RunFrom(State(Empty(), map[]), ops))
  {
    RunKeeps(State(Empty(), map[]), ops);
  }

  /** One step never reopens an account, moves a closed or blocked balance, or raises a frozen one. */
  lemma StepRespects(s: State, op: Op, id: string)
    requires Invariant(s) && Wellformed(s, op) && id in s.accounts.vals
    ensures var t := Step(s, op); var a := s.accounts.vals[id];
            && id in t.accounts.vals && t.accounts.vals[id] == a.(status := t.accounts.vals[id].status)
            && (a.status.Closed? ==> t.accounts.vals[id].status.Closed?)
            && (a.status.Closed? || a.status.Blocked? ==> RawOf(t.raw, id) == RawOf(s.raw, id))
            && (a.status.Frozen? ==> NormalBalance(a.cls, RawOf(t.raw, id)) <= NormalBalance(a.cls, RawOf(s.raw, id)))
  {
    if op.DoPost? {
      assert AccountSound(s.accounts.vals[id], id, RawOf(s.raw, id));
      if Admits(s, op.lines, op.organizationId) { PostingRespects(s, op.lines, op.organizationId, id); }
      hide Invariant, Posted, Admits, NormalBalance, AccountSound;
    } else {
      assert s.accounts.Valid();
      hide Invariant;
      OtherStepsOnlyChangeStatus(s, op, id);
      hide NormalBalance, RawOf, Step;
    }
  }

  lemma OtherStepsOnlyChangeStatus(s: State, op: Op, id: string)
    requires s.accounts.Valid() && Wellformed(s, op) && id in s.accounts.vals && !op.DoPost?
    ensures var t := Step(s, op); var a := s.accounts.vals[id];
            && t.raw == s.raw && id in t.accounts.vals && t.accounts.vals[id] == a.(status := t.accounts.vals[id].status)
            && (a.status.Closed? ==> t.accounts.vals[id].status.Closed?)
  {
    hide NormalBalance, RawOf, CodeInUse, Fits, Opened;
  }

  lemma RunStep(s: State, ops: seq<Op>)
    requires s.accounts.Valid() && ops != [] && WellformedRun(s, ops)
    ensures var front := ops[..|ops| - 1]; WellformedRun(s, front) && Wellformed(RunFrom(s, front), ops[|ops| - 1])
  {
    hide Wellformed, RunFrom;
    var front := ops[..|ops| - 1];
    forall i | 0 <= i < |front| ensures Wellformed(RunFrom(s, front[..i]), front[i]) {
      assert front[..i] == ops[..i];
    }
  }

  /** A closed account stays closed, at zero, for good. */
  lemma {:induction false} ClosedForGood(s: State, ops: seq<Op>, id: string)
    requires Invariant(s) && WellformedRun(s, ops) && id in s.accounts.vals && s.accounts.vals[id].status.Closed?
    ensures var t := RunFrom(s, ops); id in t.accounts.vals && t.accounts.vals[id] == s.accounts.vals[id] && RawOf(t.raw, id) == 0
  {
    assert AccountSound(s.accounts.vals[id], id, RawOf(s.raw, id));
    if ops != [] {
      hide Invariant, Step, Wellformed, WellformedRun;
      var front := ops[..|ops| - 1];
      RunStep(s, ops);
      ClosedForGood(s, front, id);
      RunKeeps(s, front);
      StepRespects(RunFrom(s, front), ops[|ops| - 1], id);
    }
  }

  ghost predicate FrozenThroughout(s: State, ops: seq<Op>, id: string)
    requires s.accounts.Valid()
  {
    forall i :: 0 <= i < |ops| ==>
      id in RunFrom(s, ops[..i]).accounts.vals && RunFrom(s, ops[..i]).accounts.vals[id].status.Frozen?
  }

  lemma FrozenBefore(s: State, ops: seq<Op>, id: string)
    requires s.accounts.Valid() && ops != [] && FrozenThroughout(s, ops, id)
    ensures var front := ops[..|ops| - 1];
            FrozenThroughout(s, front, id) && id in RunFrom(s, front).accounts.vals && RunFrom(s, front).accounts.vals[id].status.Frozen?
  {
    hide RunFrom;
    var front := ops[..|ops| - 1];
    forall i | 0 <= i < |front|
      ensures id in RunFrom(s, front[..i]).accounts.vals && RunFrom(s, front[..i]).accounts.vals[id].status.Frozen?
    {
      assert front[..i] == ops[..i];
    }
  }

  /** While an account stays frozen, its balance only falls. */
  lemma {:induction false} FrozenOnlyFalls(s: State, ops: seq<Op>, id: string)
    requires Invariant(s) && WellformedRun(s, ops) && id in s.accounts.vals
    requires FrozenThroughout(s, ops, id)
    ensures var t, a := RunFrom(s, ops), s.accounts.vals[id];
            && id in t.accounts.vals && t.accounts.vals[id].cls == a.cls
            && NormalBalance(a.cls, RawOf(t.raw, id)) <= NormalBalance(a.cls, RawOf(s.raw, id))
  {
    assert s.accounts.Valid();
    if ops != [] {
      hide Invariant, Step, Wellformed, WellformedRun, NormalBalance;
      var front := ops[..|ops| - 1];
      RunStep(s, ops);
      FrozenBefore(s, ops, id);
      hide FrozenThroughout;
      FrozenOnlyFalls(s, front, id);
      RunKeeps(s, front);
      StepRespects(RunFrom(s, front), ops[|ops| - 1], id);
    }
  }

  // --- the same, in the fields of an account ------------------------------------

  /** A balance counts debits up for an asset or an expense, and credits up for the rest. */
  function Held(s: State, a: Account, added: int): int {
    var raw := (if a.id in s.raw then s.raw[a.id] else 0) + added;
    if a.cls in {Asset, Expense} then raw else -raw
  }

  /** A line posts to an active account, or to a frozen one on the side that lowers it. */
  predicate LinePosts(a: Account, d: Direction) {
    a.status == Active || (a.status == Frozen && d == if a.cls in {Asset, Expense} then Credit else Debit)
  }

  /** The account may be left at this balance. */
  predicate MayEndAt(a: Account, balance: int) {
    balance >= 0 || (a.allowNegative && (a.overdraftLimit == None || balance >= -a.overdraftLimit.value))
  }

  lemma HeldIs(s: State, a: Account, lines: seq<Line>)
    ensures Held(s, a, 0) == RawOf(s.raw, a.id) * (if a.cls == Asset || a.cls == Expense then 1 else -1)
    ensures Balance(s, a) == Held(s, a, 0) && BalanceAfter(s, lines, a) == Held(s, a, Effect(lines, a.id))
  {
  }

  lemma LineIs(a: Account, d: Direction, balance: int)
    ensures CanPost(a, d) <==> LinePosts(a, d)
    ensures LinePosts(a, d) <==> a.status == Active || (a.status == Frozen && (d == Credit <==> a.cls == Asset || a.cls == Expense))
    ensures WithinOverdraft(a, balance) <==> MayEndAt(a, balance)
    ensures MayEndAt(a, balance) <==> balance >= 0 || (a.allowNegative && (a.overdraftLimit.Some? ==> balance + a.overdraftLimit.value >= 0))
  {
  }

  /** A line of a journal fits: its account is the tenant's, may take it, and may be left where the whole journal leaves it. */
  predicate LineFits(s: State, lines: seq<Line>, organizationId: Option<string>, l: Line) {
    l.accountId in s.accounts.vals && s.accounts.vals[l.accountId].organizationId == organizationId
    && var a := s.accounts.vals[l.accountId];
       LinePosts(a, l.direction) && MayEndAt(a, Held(s, a, Effect(lines, a.id)))
  }

  lemma LineFitsIs(s: State, lines: seq<Line>, organizationId: Option<string>, l: Line)
    ensures LineFits(s, lines, organizationId, l) <==>
              var a := Find(s.accounts, l.accountId, organizationId);
              a.Some? && CanPost(a.value, l.direction) && WithinOverdraft(a.value, BalanceAfter(s, lines, a.value))
  {
    if l.accountId in s.accounts.vals {
      var a := s.accounts.vals[l.accountId];
      HeldIs(s, a, lines);
      LineIs(a, l.direction, BalanceAfter(s, lines, a));
    }
    hide CanPost, WithinOverdraft, BalanceAfter, LinePosts, MayEndAt, Held, Effect;
  }

  lemma AdmitsExactly(s: State, lines: seq<Line>, organizationId: Option<string>)
    ensures Admits(s, lines, organizationId) <==>
              Net(lines) == 0 && forall i :: 0 <= i < |lines| ==> LineFits(s, lines, organizationId, lines[i])
  {
    forall i | 0 <= i < |lines|
      ensures LineFits(s, lines, organizationId, lines[i]) <==>
                var a := Find(s.accounts, lines[i].accountId, organizationId);
                a.Some? && CanPost(a.value, lines[i].direction) && WithinOverdraft(a.value, BalanceAfter(s, lines, a.value))
    {
      LineFitsIs(s, lines, organizationId, lines[i]);
    }
    hide CanPost, WithinOverdraft, BalanceAfter, LineFits, Find, Net;
  }

  /** A journal is posted exactly when its debits are its credits and each of its lines fits; then each balance moves by its lines. */
  lemma PostedExactly(s: State, lines: seq<Line>, organizationId: Option<string>)
    requires s.accounts.Valid()
    ensures var t := Step(s, DoPost(lines, organizationId));
            && t.accounts == s.accounts
            && if Net(lines) == 0 && forall i :: 0 <= i < |lines| ==> LineFits(s, lines, organizationId, lines[i])
               then forall id :: RawOf(t.raw, id) == RawOf(s.raw, id) + Effect(lines, id)
               else t.raw == s.raw
  {
    forall id ensures RawOf(Posted(s.raw, lines), id) == RawOf(s.raw, id) + Effect(lines, id) { PostedIsEffect(s.raw, lines, id); }
    AdmitsExactly(s, lines, organizationId);
    hide LineFits, Effect, Net, Posted, RawOf, Admits;
  }

  /** An account opens under a code nobody in the tenant has, in its type's own class unless that is general, with a limit only if it may go negative. */
  lemma OpenedExactly(s: State, i: NewAccount, id: string)
    requires s.accounts.Valid()
    ensures var (t, outcome) := Open(s, i, id);
            var own := if i.kind in {System, General} then Asset else if i.kind == Fee then Revenue else Liability;
            var account := Account(id, i.organizationId, i.code, i.kind, if i.cls == None then own else i.cls.value, Active, i.allowNegative, i.overdraftLimit);
            if exists k :: k in s.accounts.vals && s.accounts.vals[k].code == i.code && s.accounts.vals[k].organizationId == i.organizationId
              then t == s && outcome == Failed(CodeTaken)
            else if (i.kind != General && account.cls != own) || (i.overdraftLimit != None && !i.allowNegative)
              then t == s && outcome == Failed(Invalid)
            else t.raw == s.raw && t.accounts.vals == s.accounts.vals[id := account] && outcome == Ok(account)
  {
  }

  /** A status changes on an account of the tenant that is not closed, for a reason; closing asks for a balance of zero. */
  lemma StatusExactly(s: State, id: string, organizationId: Option<string>, status: Status, reason: string)
    requires s.accounts.Valid()
    ensures var found := id in s.accounts.vals && s.accounts.vals[id].organizationId == organizationId;
            && (var (t, outcome) := SetStatus(s, id, organizationId, status, reason);
                if !found then t == s && outcome == Failed(NotFound)
                else if s.accounts.vals[id].status == Closed then t == s && outcome == Failed(AccountClosed)
                else if Trim(reason) == "" then t == s && outcome == Failed(NeedsReason)
                else t.raw == s.raw && t.accounts.vals == s.accounts.vals[id := s.accounts.vals[id].(status := status)] && outcome.Ok?)
            && (var (t, outcome) := Close(s, id, organizationId);
                if !found then t == s && outcome == Failed(NotFound)
                else if Held(s, s.accounts.vals[id], 0) != 0 then t == s && outcome == Failed(NotEmpty)
                else t.raw == s.raw && t.accounts.vals == s.accounts.vals[id := s.accounts.vals[id].(status := Closed)] && outcome.Ok?)
  {
    hide Trim;
    if id in s.accounts.vals { HeldIs(s, s.accounts.vals[id], []); }
  }
}
