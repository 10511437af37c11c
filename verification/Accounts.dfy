/**
 Accounts and refresh tokens: the account list in one file, the tokens in the system keyring
 or, where there is none, in an encrypted file. Every operation may fail at every write.
 */
module Accounts {
  import opened Common

  datatype Backend = Keyring | EncryptedFile

  datatype Account = Account(id: string, username: string, refreshedAt: int, isActive: bool, storage: Backend)

  datatype AuthError = AccountNotFound(id: string) | DecryptFailed | StorageIo | ChainFailed

  type Blob = seq<bv8>

  /**
   `usesKeyring`: whether keyring calls succeed; it does not change during a run. `seal` and
   `unseal` are the cipher, of which only one law is known.
   */
  datatype Config = Config(usesKeyring: bool, seal: (string, nat) -> Blob, unseal: Blob -> Option<string>)

  ghost predicate CipherLaw(c: Config) {
    forall token, nonce: nat :: c.unseal(c.seal(token, nonce)) == Some(token)
  }

  /** Everything on disk and in the keyring. */
  datatype Store = Store(accounts: seq<Account>, keyring: map<string, string>, enc: map<string, Blob>)

  // ---------------------------------------------------------------- tokens

  function StoreToken(c: Config, s: Store, id: string, token: string, nonce: nat, encOk: bool)
    : (Store, Result<Backend, AuthError>)
  {
    if c.usesKeyring then (s.(keyring := s.keyring[id := token]), Ok(Keyring))
    else if encOk then (s.(enc := s.enc[id := c.seal(token, nonce)]), Ok(EncryptedFile))
    else (s, Err(StorageIo))
  }

  function LoadToken(c: Config, s: Store, id: string): Result<string, AuthError> {
    if c.usesKeyring && id in s.keyring then Ok(s.keyring[id])
    else if id !in s.enc then Err(AccountNotFound(id))
    else if c.unseal(s.enc[id]).None? then Err(DecryptFailed)
    else Ok(c.unseal(s.enc[id]).value)
  }

  /** Both tiers; the keyring half is best effort, an absent file entry is not an error. */
  function DeleteToken(c: Config, s: Store, id: string, encOk: bool): (Store, Result<(), AuthError>) {
    var t := if c.usesKeyring then s.(keyring := s.keyring - {id}) else s;
    if id !in s.enc then (t, Ok(()))
    else if encOk then (t.(enc := t.enc - {id}), Ok(()))
    else (t, Err(StorageIo))
  }

  /** Tokens sit in the tier in use, and every stored blob can be opened. */
  ghost predicate Tidy(c: Config, s: Store) {
    && (c.usesKeyring ==> s.enc == map[])
    && forall id :: id in s.enc ==> c.unseal(s.enc[id]).Some?
  }

  /** The single map from account to token that the two tiers stand for. */
  ghost function Tokens(c: Config, s: Store): (m: map<string, string>)
    requires Tidy(c, s)
  {
    if c.usesKeyring then s.keyring else map id | id in s.enc :: c.unseal(s.enc[id]).value
  }

  /** Store, load and delete over the two tiers are update, lookup and removal on the one map. */
  lemma TiersRefineOneMap(c: Config, s: Store, id: string, token: string, nonce: nat, encOk: bool)
    requires CipherLaw(c) && Tidy(c, s)
    ensures var (t, r) := StoreToken(c, s, id, token, nonce, encOk);
            && Tidy(c, t) && t.accounts == s.accounts
            && Tokens(c, t) == (if r.Ok? then Tokens(c, s)[id := token] else Tokens(c, s))
    ensures var (t, r) := DeleteToken(c, s, id, encOk);
            && Tidy(c, t) && t.accounts == s.accounts
            && Tokens(c, t) == (if r.Ok? then Tokens(c, s) - {id} else Tokens(c, s))
    ensures LoadToken(c, s, id) == if id in Tokens(c, s) then Ok(Tokens(c, s)[id]) else Err(AccountNotFound(id))
  {
  }

  // ---------------------------------------------------------------- the account list

  function IndexOf(accounts: seq<Account>, id: string): (k: nat)
    ensures k <= |accounts|
    ensures k < |accounts| ==> accounts[k].id == id
    ensures forall j :: 0 <= j < k ==> accounts[j].id != id
  {
    if accounts == [] || accounts[0].id == id then 0 else 1 + IndexOf(accounts[1..], id)
  }

  predicate Listed(accounts: seq<Account>, id: string) {
    IndexOf(accounts, id) < |accounts|
  }

  /** Replace the entry of a known account, keeping whether it is active; append a new one. */
  function Upsert(accounts: seq<Account>, a: Account): seq<Account> {
    var k := IndexOf(accounts, a.id);
    if k < |accounts| then accounts[k := a.(isActive := accounts[k].isActive)]
    else accounts + [if accounts == [] then a.(isActive := true) else a]
  }

  function Without(accounts: seq<Account>, id: string): (r: seq<Account>)
    ensures forall a :: a in r <==> a in accounts && a.id != id
  {
    if accounts == [] then []
    else
      var n := |accounts| - 1;
      Without(accounts[..n], id) + if accounts[n].id != id then [accounts[n]] else []
  }

  /** Removing an account takes out its entry and keeps the order of the others. */
  lemma {:induction false} WithoutSplits(before: seq<Account>, a: Account, after: seq<Account>)
    requires forall i :: 0 <= i < |before| ==> before[i].id != a.id
    requires forall i :: 0 <= i < |after| ==> after[i].id != a.id
    ensures Without(before + [a] + after, a.id) == before + after
    decreases |after|
  {
    hide Without;
    if after == [] {
      WithoutOneMore(before, a, a.id);
      WithoutNothing(before, a.id);
      assert before + [a] + after == before + [a] && before + after == before;
    } else {
      var n := |after| - 1;
      WithoutSplits(before, a, after[..n]);
      WithoutOneMore(before + [a] + after[..n], after[n], a.id);
      assert before + [a] + after == before + [a] + after[..n] + [after[n]];
      assert before + after == before + after[..n] + [after[n]];
    }
  }

  lemma WithoutOneMore(accounts: seq<Account>, last: Account, id: string)
    ensures Without(accounts + [last], id) == Without(accounts, id) + if last.id != id then [last] else []
  {
    assert (accounts + [last])[..|accounts|] == accounts;
  }

  lemma WithoutEmpty(id: string)
    ensures Without([], id) == []
  {
  }

  lemma {:induction false} WithoutNothing(accounts: seq<Account>, id: string)
    requires forall i :: 0 <= i < |accounts| ==> accounts[i].id != id
    ensures Without(accounts, id) == accounts
    decreases |accounts|
  {
    hide Without;
    if accounts == [] {
      WithoutEmpty(id);
    } else {
      var n := |accounts| - 1;
      WithoutNothing(accounts[..n], id);
      WithoutOneMore(accounts[..n], accounts[n], id);
      assert accounts == accounts[..n] + [accounts[n]];
    }
  }

  function OnlyActive(accounts: seq<Account>, id: string): (r: seq<Account>)
    ensures |r| == |accounts| && forall k :: 0 <= k < |r| ==> r[k] == accounts[k].(isActive := accounts[k].id == id)
  {
    seq(|accounts|, (k: nat) requires k < |accounts| => accounts[k].(isActive := accounts[k].id == id))
  }

  function Touch(accounts: seq<Account>, a: Account): seq<Account> {
    var k := IndexOf(accounts, a.id);
    if k == |accounts| then accounts
    else accounts[k := accounts[k].(username := a.username, refreshedAt := a.refreshedAt)]
  }

  // ---------------------------------------------------------------- operations

  /** What the user does, what the authentication chain answers, and which writes succeed. */
  datatype Op =
    | Add(account: Account, token: string, nonce: nat, encOk: bool, saveOk: bool)
    | Remove(id: string, encOk: bool, saveOk: bool)
    | Activate(id: string, saveOk: bool)
    | Refresh(id: string, output: Option<(Account, string)>, nonce: nat, encOk: bool, saveOk: bool)

  function Save(s: Store, accounts: seq<Account>, saveOk: bool): (Store, Result<(), AuthError>) {
    if saveOk then (s.(accounts := accounts), Ok(())) else (s, Err(StorageIo))
  }

  function Apply(c: Config, s: Store, op: Op): (Store, Result<(), AuthError>) {
    match op
    case Add(a, token, nonce, encOk, saveOk) =>
      var (t, stored) := StoreToken(c, s, a.id, token, nonce, encOk);
      if stored.Err? then (t, Err(stored.error))
      else Save(t, Upsert(t.accounts, a.(storage := stored.value)), saveOk)
    case Remove(id, encOk, saveOk) =>
      var (t, deleted) := DeleteToken(c, s, id, encOk);
      if deleted.Err? then (t, deleted) else Save(t, Without(t.accounts, id), saveOk)
    case Activate(id, saveOk) =>
      if !Listed(s.accounts, id) then (s, Err(AccountNotFound(id))) else Save(s, OnlyActive(s.accounts, id), saveOk)
    case Refresh(id, output, nonce, encOk, saveOk) =>
      var token := LoadToken(c, s, id);
      if token.Err? then (s, Err(token.error))
      else if output.None? then (s, Err(ChainFailed))
      else
        var (a, rotated) := output.value;
        var (t, stored) := StoreToken(c, s, a.id, rotated, nonce, encOk);
        if stored.Err? then (t, Err(stored.error)) else Save(t, Touch(t.accounts, a), saveOk)
  }

  /** The authentication chain hands out inactive accounts. */
  predicate FromChain(op: Op) {
    op.Add? ==> !op.account.isActive
  }

  // ---------------------------------------------------------------- invariants

  predicate UniqueIds(accounts: seq<Account>) {
    forall i, j :: 0 <= i < j < |accounts| ==> accounts[i].id != accounts[j].id
  }

  predicate AtMostOneActive(accounts: seq<Account>) {
    forall i, j :: 0 <= i < j < |accounts| ==> !(accounts[i].isActive && accounts[j].isActive)
  }

  ghost predicate AllLoadable(c: Config, s: Store) {
    forall i :: 0 <= i < |s.accounts| ==> LoadToken(c, s, s.accounts[i].id).Ok?
  }

  ghost predicate Sound(c: Config, s: Store) {
    Tidy(c, s) && UniqueIds(s.accounts) && AtMostOneActive(s.accounts)
  }

  /** A removal that deleted the token of a listed account and then could not save the list. */
  predicate HalfRemoved(c: Config, s: Store, op: Op) {
    op.Remove? && Listed(s.accounts, op.id) && DeleteToken(c, s, op.id, op.encOk).1.Ok? && !op.saveOk
  }

  lemma {:induction false} WithoutKeeps(accounts: seq<Account>, id: string)
    requires UniqueIds(accounts) && AtMostOneActive(accounts)
    ensures UniqueIds(Without(accounts, id)) && AtMostOneActive(Without(accounts, id))
    decreases |accounts|
  {
    if accounts != [] {
      hide UniqueIds, AtMostOneActive;
      var n := |accounts| - 1;
      PrefixKeeps(accounts, n);
      WithoutKeeps(accounts[..n], id);
      AppendKeeps(Without(accounts[..n], id), accounts[n]);
      WithoutLast(accounts, id);
    }
  }

  lemma WithoutLast(accounts: seq<Account>, id: string)
    requires accounts != []
    ensures var n := |accounts| - 1;
            var front := Without(accounts[..n], id);
            Without(accounts, id) == front || Without(accounts, id) == front + [accounts[n]]
  {
    assert Without(accounts[..|accounts| - 1], id) + [] == Without(accounts[..|accounts| - 1], id);
  }

  lemma PrefixKeeps(accounts: seq<Account>, n: nat)
    requires n < |accounts| && UniqueIds(accounts) && AtMostOneActive(accounts)
    ensures UniqueIds(accounts[..n]) && AtMostOneActive(accounts[..n])
    ensures forall x :: x in accounts[..n] ==> x.id != accounts[n].id && !(x.isActive && accounts[n].isActive)
  {
  }

  lemma AppendKeeps(front: seq<Account>, last: Account)
    requires UniqueIds(front) && AtMostOneActive(front)
    requires forall x :: x in front ==> x.id != last.id && !(x.isActive && last.isActive)
    ensures UniqueIds(front + [last]) && AtMostOneActive(front + [last])
  {
    assert forall i :: 0 <= i < |front| ==> front[i] in front;
  }

  lemma UpsertKeeps(accounts: seq<Account>, a: Account)
    requires UniqueIds(accounts) && AtMostOneActive(accounts) && !a.isActive
    ensures UniqueIds(Upsert(accounts, a)) && AtMostOneActive(Upsert(accounts, a))
    ensures forall i :: 0 <= i < |Upsert(accounts, a)| ==>
              Upsert(accounts, a)[i].id == a.id || Listed(accounts, Upsert(accounts, a)[i].id)
  {
    ListedIffPresent(accounts);
  }

  lemma ListedIffPresent(accounts: seq<Account>)
    ensures forall id :: Listed(accounts, id) <==> exists i :: 0 <= i < |accounts| && accounts[i].id == id
  {
    forall id
      ensures Listed(accounts, id) <==> exists i :: 0 <= i < |accounts| && accounts[i].id == id
    {
      var k := IndexOf(accounts, id);
    }
  }

  /** Every operation, failing or not, keeps ids unique and at most one account active. */
  lemma ApplyKeepsSound(c: Config, s: Store, op: Op)
    requires CipherLaw(c) && Sound(c, s) && FromChain(op)
    ensures Sound(c, Apply(c, s, op).0)
  {
    hide UniqueIds, AtMostOneActive, CipherLaw, Tokens, StoreToken, DeleteToken, LoadToken, Upsert, Without,
         OnlyActive, Touch;
    match op {
      case Add(a, token, nonce, encOk, saveOk) =>
        TiersRefineOneMap(c, s, a.id, token, nonce, encOk);
        var stored := StoreToken(c, s, a.id, token, nonce, encOk).1;
        if stored.Ok? {
          UpsertKeeps(s.accounts, a.(storage := stored.value));
        }
      case Remove(id, encOk, saveOk) =>
        TiersRefineOneMap(c, s, id, "", 0, encOk);
        WithoutKeeps(s.accounts, id);
      case Activate(id, saveOk) =>
        OnlyActiveKeeps(s.accounts, id);
      case Refresh(id, output, nonce, encOk, saveOk) =>
        if output.Some? {
          TiersRefineOneMap(c, s, output.value.0.id, output.value.1, nonce, encOk);
          TouchKeeps(s.accounts, output.value.0);
        }
    }
  }

  lemma OnlyActiveKeeps(accounts: seq<Account>, id: string)
    requires UniqueIds(accounts)
    ensures UniqueIds(OnlyActive(accounts, id)) && AtMostOneActive(OnlyActive(accounts, id))
  {
  }

  lemma TouchKeeps(accounts: seq<Account>, a: Account)
    requires UniqueIds(accounts) && AtMostOneActive(accounts)
    ensures UniqueIds(Touch(accounts, a)) && AtMostOneActive(Touch(accounts, a))
  {
  }

  lemma LoadableIds(c: Config, s: Store)
    requires Tidy(c, s) && CipherLaw(c)
    ensures AllLoadable(c, s) <==> forall i :: 0 <= i < |s.accounts| ==> s.accounts[i].id in Tokens(c, s)
  {
    forall i | 0 <= i < |s.accounts|
      ensures LoadToken(c, s, s.accounts[i].id).Ok? <==> s.accounts[i].id in Tokens(c, s)
    {
      TiersRefineOneMap(c, s, s.accounts[i].id, "", 0, true);
    }
  }

  /**
   The step that can strand an account: starting with every listed account able to load its
   token, an operation keeps it so if and only if it is not a half-finished removal.
   */
  lemma LoadableExactly(c: Config, s: Store, op: Op)
    requires CipherLaw(c) && Sound(c, s) && FromChain(op) && AllLoadable(c, s)
    ensures AllLoadable(c, Apply(c, s, op).0) <==> !HalfRemoved(c, s, op)
  {
    hide AllLoadable, Sound, FromChain, HalfRemoved, Apply, CipherLaw;
    match op {
      case Add(_, _, _, _, _) => AddLoadable(c, s, op);
      case Remove(id, encOk, saveOk) => RemoveLoadable(c, s, id, encOk, saveOk);
      case Activate(_, _) => ActivateLoadable(c, s, op);
      case Refresh(_, _, _, _, _) => RefreshLoadable(c, s, op);
    }
  }

  lemma AddLoadable(c: Config, s: Store, op: Op)
    requires CipherLaw(c) && Sound(c, s) && FromChain(op) && AllLoadable(c, s) && op.Add?
    ensures AllLoadable(c, Apply(c, s, op).0) && !HalfRemoved(c, s, op)
  {
    hide UniqueIds, AtMostOneActive, LoadToken, Upsert, CipherLaw;
    ApplyKeepsSound(c, s, op);
    var a := op.account;
    LoadableIds(c, s);
    LoadableIds(c, Apply(c, s, op).0);
    TiersRefineOneMap(c, s, a.id, op.token, op.nonce, op.encOk);
    ListedIffPresent(s.accounts);
    var stored := StoreToken(c, s, a.id, op.token, op.nonce, op.encOk).1;
    if stored.Ok? {
      UpsertKeeps(s.accounts, a.(storage := stored.value));
    }
  }

  lemma ActivateLoadable(c: Config, s: Store, op: Op)
    requires CipherLaw(c) && Sound(c, s) && AllLoadable(c, s) && op.Activate?
    ensures AllLoadable(c, Apply(c, s, op).0) && !HalfRemoved(c, s, op)
  {
    hide UniqueIds, AtMostOneActive, CipherLaw;
  }

  lemma RefreshLoadable(c: Config, s: Store, op: Op)
    requires CipherLaw(c) && Sound(c, s) && FromChain(op) && AllLoadable(c, s) && op.Refresh?
    ensures AllLoadable(c, Apply(c, s, op).0) && !HalfRemoved(c, s, op)
  {
    hide UniqueIds, AtMostOneActive, LoadToken, CipherLaw;
    ApplyKeepsSound(c, s, op);
    LoadableIds(c, s);
    LoadableIds(c, Apply(c, s, op).0);
    if op.output.Some? {
      TiersRefineOneMap(c, s, op.output.value.0.id, op.output.value.1, op.nonce, op.encOk);
    }
  }

  lemma RemoveLoadable(c: Config, s: Store, id: string, encOk: bool, saveOk: bool)
    requires CipherLaw(c) && Sound(c, s) && AllLoadable(c, s)
    ensures var op := Remove(id, encOk, saveOk);
            AllLoadable(c, Apply(c, s, op).0) <==> !HalfRemoved(c, s, op)
  {
    var op := Remove(id, encOk, saveOk);
    var t := Apply(c, s, op).0;
    TiersRefineOneMap(c, s, id, "", 0, encOk);
    LoadableIds(c, s);
    LoadableIds(c, t);
    ListedIffPresent(s.accounts);
    var without := Without(s.accounts, id);
    forall i | 0 <= i < |without|
      ensures without[i].id != id && without[i].id in Tokens(c, s)
    {
      assert without[i] in without && without[i] in s.accounts;
    }
  }

  // ---------------------------------------------------------------- runs

  function Run(c: Config, s: Store, ops: seq<Op>): Store
    decreases |ops|
  {
    if ops == [] then s else Apply(c, Run(c, s, ops[..|ops| - 1]), ops[|ops| - 1]).0
  }

  /** No removal in the run was cut between its two writes. */
  ghost predicate NoHalfRemovals(c: Config, s: Store, ops: seq<Op>) {
    forall k :: 0 <= k < |ops| ==> !HalfRemoved(c, Run(c, s, ops[..k]), ops[k])
  }

  const EMPTY := Store([], map[], map[])

  /**
   Every run from an empty machine: ids stay unique and at most one account is active after
   every operation; and as long as no removal was cut in half, every listed account can load
   its token after every operation.
   */
  lemma {:induction false} RunsStaySound(c: Config, ops: seq<Op>)
    requires CipherLaw(c) && forall k :: 0 <= k < |ops| ==> FromChain(ops[k])
    ensures Sound(c, Run(c, EMPTY, ops))
    ensures NoHalfRemovals(c, EMPTY, ops) ==> AllLoadable(c, Run(c, EMPTY, ops))
    decreases |ops|
  {
    if ops != [] {
      var front := ops[..|ops| - 1];
      var last := ops[|ops| - 1];
      RunsStaySound(c, front);
      hide Sound, AllLoadable, Apply, HalfRemoved, FromChain;
      ApplyKeepsSound(c, Run(c, EMPTY, front), last);
      assert forall k :: 0 <= k < |front| ==> front[..k] == ops[..k];
      if NoHalfRemovals(c, EMPTY, ops) {
        LoadableExactly(c, Run(c, EMPTY, front), last);
      }
    }
  }

  /** The operation leaves a token for this account in storage. */
  ghost predicate Stores(c: Config, s: Store, op: Op, id: string) {
    match op
    case Add(a, token, nonce, encOk, _) => a.id == id && StoreToken(c, s, a.id, token, nonce, encOk).1.Ok?
    case Refresh(from, output, nonce, encOk, _) =>
      && LoadToken(c, s, from).Ok? && output.Some? && output.value.0.id == id
      && StoreToken(c, s, id, output.value.1, nonce, encOk).1.Ok?
    case _ => false
  }

  ghost predicate HalfRemoves(c: Config, s: Store, op: Op, id: string) {
    HalfRemoved(c, s, op) && op.id == id
  }

  /** One step, for one account: which operations decide whether a listed account has a token. */
  lemma TokenStep(c: Config, s: Store, op: Op, id: string)
    requires CipherLaw(c) && Sound(c, s) && FromChain(op)
    ensures var t := Apply(c, s, op).0;
            && Tidy(c, t)
            && (Stores(c, s, op, id) ==> id in Tokens(c, t))
            && (HalfRemoves(c, s, op, id) ==> id !in Tokens(c, t))
            && (!Stores(c, s, op, id) && !HalfRemoves(c, s, op, id) && Listed(t.accounts, id) ==>
                  Listed(s.accounts, id) && (id in Tokens(c, t) <==> id in Tokens(c, s)))
  {
    hide UniqueIds, AtMostOneActive, CipherLaw;
    match op {
      case Add(a, token, nonce, encOk, saveOk) => AddStep(c, s, op, id);
      case Remove(from, encOk, saveOk) => RemoveStep(c, s, op, id);
      case Activate(from, saveOk) =>
        ListedIffPresent(s.accounts);
        ListedIffPresent(OnlyActive(s.accounts, from));
        hide Tokens;
        assert Tokens(c, Apply(c, s, op).0) == Tokens(c, s) by {
          SameTokens(c, s, Apply(c, s, op).0);
        }
      case Refresh(_, _, _, _, _) => RefreshStep(c, s, op, id);
    }
  }

  /** The tokens do not depend on the account list. */
  lemma SameTokens(c: Config, s: Store, t: Store)
    requires Tidy(c, s) && t == s.(accounts := t.accounts)
    ensures Tidy(c, t) && Tokens(c, t) == Tokens(c, s)
  {
  }

  lemma AddStep(c: Config, s: Store, op: Op, id: string)
    requires CipherLaw(c) && Sound(c, s) && op.Add?
    ensures var t := Apply(c, s, op).0;
            && Tidy(c, t)
            && (Stores(c, s, op, id) ==> id in Tokens(c, t))
            && (!Stores(c, s, op, id) && Listed(t.accounts, id) ==>
                  Listed(s.accounts, id) && (id in Tokens(c, t) <==> id in Tokens(c, s)))
  {
    hide UniqueIds, AtMostOneActive, CipherLaw, Tokens, Tidy, StoreToken;
    var a := op.account;
    TiersRefineOneMap(c, s, a.id, op.token, op.nonce, op.encOk);
    var (m, stored) := StoreToken(c, s, a.id, op.token, op.nonce, op.encOk);
    var t := Apply(c, s, op).0;
    SameTokens(c, m, t);
    if stored.Ok? {
      ListedAfterUpsert(s.accounts, a.(storage := stored.value), id);
    }
  }

  lemma ListedAfterUpsert(accounts: seq<Account>, a: Account, id: string)
    ensures Listed(Upsert(accounts, a), id) <==> Listed(accounts, id) || id == a.id
  {
    ListedIffPresent(accounts);
    ListedIffPresent(Upsert(accounts, a));
    var k := IndexOf(accounts, a.id);
    var r := Upsert(accounts, a);
    assert forall i :: 0 <= i < |accounts| ==> r[i].id == accounts[i].id;
    assert r[k].id == a.id;
  }

  lemma RemoveStep(c: Config, s: Store, op: Op, id: string)
    requires CipherLaw(c) && Sound(c, s) && op.Remove?
    ensures var t := Apply(c, s, op).0;
            && Tidy(c, t)
            && (HalfRemoves(c, s, op, id) ==> id !in Tokens(c, t))
            && (!HalfRemoves(c, s, op, id) && Listed(t.accounts, id) ==>
                  Listed(s.accounts, id) && (id in Tokens(c, t) <==> id in Tokens(c, s)))
  {
    hide UniqueIds, AtMostOneActive, CipherLaw, Tokens, Tidy, DeleteToken;
    TiersRefineOneMap(c, s, op.id, "", 0, op.encOk);
    var (m, deleted) := DeleteToken(c, s, op.id, op.encOk);
    SameTokens(c, m, Apply(c, s, op).0);
    ListedIffPresent(s.accounts);
    ListedIffPresent(Without(s.accounts, op.id));
    assert forall x :: x in Without(s.accounts, op.id) ==> x in s.accounts && x.id != op.id;
  }

  lemma RefreshStep(c: Config, s: Store, op: Op, id: string)
    requires CipherLaw(c) && Sound(c, s) && op.Refresh?
    ensures var t := Apply(c, s, op).0;
            && Tidy(c, t)
            && (Stores(c, s, op, id) ==> id in Tokens(c, t))
            && (!Stores(c, s, op, id) && Listed(t.accounts, id) ==>
                  Listed(s.accounts, id) && (id in Tokens(c, t) <==> id in Tokens(c, s)))
  {
    hide UniqueIds, AtMostOneActive, CipherLaw, Tokens, Tidy, StoreToken, LoadToken;
    if LoadToken(c, s, op.id).Ok? && op.output.Some? {
      var (a, rotated) := op.output.value;
      TiersRefineOneMap(c, s, a.id, rotated, op.nonce, op.encOk);
      var (m, stored) := StoreToken(c, s, a.id, rotated, op.nonce, op.encOk);
      SameTokens(c, m, Apply(c, s, op).0);
      ListedIffPresent(s.accounts);
      ListedIffPresent(Touch(s.accounts, a));
      assert forall i :: 0 <= i < |s.accounts| ==> Touch(s.accounts, a)[i].id == s.accounts[i].id;
    }
  }

  /** Half removed at step `k`, and no later operation stored a token for it. */
  ghost predicate StrandedAt(c: Config, ops: seq<Op>, id: string, k: nat) {
    && k < |ops| && HalfRemoves(c, Run(c, EMPTY, ops[..k]), ops[k], id)
    && forall l :: k < l < |ops| ==> !Stores(c, Run(c, EMPTY, ops[..l]), ops[l], id)
  }

  ghost predicate Stranded(c: Config, ops: seq<Op>, id: string) {
    exists k: nat :: StrandedAt(c, ops, id, k)
  }

  lemma StrandedStep(c: Config, ops: seq<Op>, id: string)
    requires ops != []
    ensures var front, last := ops[..|ops| - 1], ops[|ops| - 1];
            var s := Run(c, EMPTY, front);
            Stranded(c, ops, id) <==>
            HalfRemoves(c, s, last, id) || (Stranded(c, front, id) && !Stores(c, s, last, id))
  {
    hide Run, HalfRemoved, Stores, HalfRemoves;
    var front, last := ops[..|ops| - 1], ops[|ops| - 1];
    var s := Run(c, EMPTY, front);
    assert forall l :: 0 <= l < |front| ==> front[..l] == ops[..l];
    if k: nat :| StrandedAt(c, ops, id, k) {
      if k < |front| {
        assert StrandedAt(c, front, id, k);
      }
    }
    if HalfRemoves(c, s, last, id) {
      assert StrandedAt(c, ops, id, |front|);
    }
    if k: nat :| StrandedAt(c, front, id, k) && !Stores(c, s, last, id) {
      assert StrandedAt(c, ops, id, k);
    }
  }

  /**
   Which accounts are stranded after any run from an empty machine: a listed account cannot
   load its token if and only if a removal of it was cut in half and nothing stored a token
   for it since.
   */
  lemma {:induction false} StrandedExactly(c: Config, ops: seq<Op>, id: string)
    requires CipherLaw(c) && forall k :: 0 <= k < |ops| ==> FromChain(ops[k])
    requires Listed(Run(c, EMPTY, ops).accounts, id)
    ensures LoadToken(c, Run(c, EMPTY, ops), id).Err? <==> Stranded(c, ops, id)
    decreases |ops|
  {
    hide FromChain, Sound, Apply, Tokens, Stranded, Stores, HalfRemoves, CipherLaw, Tidy, LoadToken, Listed;
    RunsStaySound(c, ops);
    SoundMeansTidy(c, Run(c, EMPTY, ops));
    TiersRefineOneMap(c, Run(c, EMPTY, ops), id, "", 0, true);
    if ops == [] {
      NobodyListed(id);
    } else {
      var front, last := ops[..|ops| - 1], ops[|ops| - 1];
      var s := Run(c, EMPTY, front);
      RunsStaySound(c, front);
      SoundMeansTidy(c, s);
      TiersRefineOneMap(c, s, id, "", 0, true);
      TokenStep(c, s, last, id);
      StrandedStep(c, ops, id);
      StoreOrHalf(c, s, last, id);
      if !Stores(c, s, last, id) && !HalfRemoves(c, s, last, id) {
        StrandedExactly(c, front, id);
      }
    }
  }

  lemma SoundMeansTidy(c: Config, s: Store)
    requires Sound(c, s)
    ensures Tidy(c, s)
  {
  }

  lemma StoreOrHalf(c: Config, s: Store, op: Op, id: string)
    ensures !(Stores(c, s, op, id) && HalfRemoves(c, s, op, id))
  {
  }

  lemma NobodyListed(id: string)
    ensures !Listed(EMPTY.accounts, id)
  {
  }

  /** The failing case: a removal cut in half, then a successful operation on another account. */
  lemma StrandedAccount(c: Config, a: Account, b: Account)
    requires CipherLaw(c) && a.id != b.id && !a.isActive && !b.isActive
    ensures var ops := [Add(a, "t", 0, true, true), Add(b, "u", 0, true, true),
                        Remove(a.id, true, false), Activate(b.id, true)];
            var s := Run(c, EMPTY, ops);
            && Apply(c, Run(c, EMPTY, ops[..3]), ops[3]).1.Ok?
            && Listed(s.accounts, a.id) && LoadToken(c, s, a.id).Err?
  {
    var o0, o1 := Add(a, "t", 0, true, true), Add(b, "u", 0, true, true);
    var o2, o3 := Remove(a.id, true, false), Activate(b.id, true);
    var ops := [o0, o1, o2, o3];
    RunFour(c, o0, o1, o2, o3);
    hide Run;
    var s2 := Apply(c, Apply(c, EMPTY, o0).0, o1).0;
    TwoAdded(c, a, b);
    RemovalStrands(c, s2, a, b);
  }

  lemma RunFour(c: Config, o0: Op, o1: Op, o2: Op, o3: Op)
    ensures var s3 := Apply(c, Apply(c, Apply(c, EMPTY, o0).0, o1).0, o2).0;
            Run(c, EMPTY, [o0, o1, o2, o3][..3]) == s3 && Run(c, EMPTY, [o0, o1, o2, o3]) == Apply(c, s3, o3).0
  {
    hide Apply;
    var ops := [o0, o1, o2, o3];
    assert ops[..3] == [o0, o1, o2] && ops[..3][..2] == [o0, o1] && ops[..3][..2][..1] == [o0]
           && ops[..3][..2][..1][..0] == [];
    assert Run(c, EMPTY, ops[..3][..2][..1]) == Apply(c, EMPTY, o0).0;
  }

  lemma TwoAdded(c: Config, a: Account, b: Account)
    requires CipherLaw(c) && a.id != b.id
    ensures var s := Apply(c, Apply(c, EMPTY, Add(a, "t", 0, true, true)).0, Add(b, "u", 0, true, true)).0;
            |s.accounts| == 2 && s.accounts[0].id == a.id && s.accounts[1].id == b.id && Tidy(c, s)
  {
    assert IndexOf([], a.id) == 0;
    var s1 := Apply(c, EMPTY, Add(a, "t", 0, true, true)).0;
    assert |s1.accounts| == 1 && s1.accounts[0].id == a.id;
    assert IndexOf(s1.accounts, b.id) == 1;
  }

  lemma RemovalStrands(c: Config, s: Store, a: Account, b: Account)
    requires Tidy(c, s) && |s.accounts| == 2 && s.accounts[0].id == a.id && s.accounts[1].id == b.id
    ensures var t := Apply(c, s, Remove(a.id, true, false)).0;
            var last := Apply(c, t, Activate(b.id, true));
            last.1.Ok? && Listed(last.0.accounts, a.id) && LoadToken(c, last.0, a.id).Err?
  {
    var t := Apply(c, s, Remove(a.id, true, false)).0;
    assert t.accounts == s.accounts;
    ListedIffPresent(t.accounts);
    var u := Apply(c, t, Activate(b.id, true)).0;
    assert u.accounts[0].id == a.id;
    ListedIffPresent(u.accounts);
  }

  // ---------------------------------------------------------------- which token, which entry

  /** The token an operation stores for an account, if it gets as far as storing one. */
  ghost predicate Gives(c: Config, s: Store, op: Op, id: string, token: string) {
    && (c.usesKeyring || (if op.Add? then op.encOk else op.Refresh? && op.encOk))
    && match op
       case Add(a, given, _, _, _) => a.id == id && given == token
       case Refresh(from, output, _, _, _) =>
         LoadToken(c, s, from).Ok? && output.Some? && output.value.0.id == id && output.value.1 == token
       case _ => false
  }

  /** What each operation does to the one map of tokens: which entry it sets, to what, or removes. */
  lemma TokensAfter(c: Config, s: Store, op: Op)
    requires CipherLaw(c) && Tidy(c, s)
    ensures var (t, r) := Apply(c, s, op);
            && Tidy(c, t)
            && (forall id, token :: Gives(c, s, op, id, token) ==> Tokens(c, t) == Tokens(c, s)[id := token])
            && ((forall id, token :: !Gives(c, s, op, id, token)) && !op.Remove? ==> Tokens(c, t) == Tokens(c, s))
            && (op.Remove? ==> Tokens(c, t) == Tokens(c, s) || Tokens(c, t) == Tokens(c, s) - {op.id})
            && (op.Remove? && r.Ok? ==> Tokens(c, t) == Tokens(c, s) - {op.id})
  {
    hide Tokens, Tidy, CipherLaw, LoadToken, Upsert, Without, Touch, OnlyActive;
    var t := Apply(c, s, op).0;
    match op {
      case Add(a, token, nonce, encOk, saveOk) =>
        TiersRefineOneMap(c, s, a.id, token, nonce, encOk);
        SameTokens(c, StoreToken(c, s, a.id, token, nonce, encOk).0, t);
        assert c.usesKeyring || encOk ==> Gives(c, s, op, a.id, token);
      case Remove(id, encOk, saveOk) =>
        TiersRefineOneMap(c, s, id, "", 0, encOk);
        SameTokens(c, DeleteToken(c, s, id, encOk).0, t);
      case Activate(_, _) =>
        SameTokens(c, s, t);
      case Refresh(id, output, nonce, encOk, saveOk) =>
        if LoadToken(c, s, id).Ok? && output.Some? {
          var (a, rotated) := output.value;
          TiersRefineOneMap(c, s, a.id, rotated, nonce, encOk);
          SameTokens(c, StoreToken(c, s, a.id, rotated, nonce, encOk).0, t);
          assert c.usesKeyring || encOk ==> Gives(c, s, op, a.id, rotated);
        }
    }
  }

  /** Operation `k` gave the account this token and no later operation gave it another. */
  ghost predicate LatestAt(c: Config, ops: seq<Op>, id: string, token: string, k: nat) {
    && k < |ops| && Gives(c, Run(c, EMPTY, ops[..k]), ops[k], id, token)
    && forall l, other :: k < l < |ops| ==> !Gives(c, Run(c, EMPTY, ops[..l]), ops[l], id, other)
  }

  /** After any run a loaded token is the one the latest store for this account was given. */
  lemma {:induction false} LoadedIsLatest(c: Config, ops: seq<Op>, id: string, token: string) returns (k: nat)
    requires CipherLaw(c) && LoadToken(c, Run(c, EMPTY, ops), id) == Ok(token)
    ensures LatestAt(c, ops, id, token, k)
    decreases |ops|
  {
    hide Apply, Tokens, Gives, CipherLaw, Tidy, LoadToken;
    RunIsTidy(c, ops);
    TiersRefineOneMap(c, Run(c, EMPTY, ops), id, "", 0, true);
    if ops == [] {
      NoTokens(c);
    } else {
      var n := |ops| - 1;
      var s, last := Run(c, EMPTY, ops[..n]), ops[n];
      RunIsTidy(c, ops[..n]);
      TokensAfter(c, s, last);
      TiersRefineOneMap(c, s, id, "", 0, true);
      if other :| Gives(c, s, last, id, other) {
        k := n;
      } else {
        OtherTokensStay(c, s, last, id);
        k := LoadedIsLatest(c, ops[..n], id, token);
        assert forall l :: 0 <= l < n ==> ops[..n][..l] == ops[..l];
      }
    }
  }

  lemma OtherTokensStay(c: Config, s: Store, op: Op, id: string)
    requires CipherLaw(c) && Tidy(c, s) && Tidy(c, Apply(c, s, op).0)
    requires forall token :: !Gives(c, s, op, id, token)
    requires id in Tokens(c, Apply(c, s, op).0)
    ensures id in Tokens(c, s) && Tokens(c, s)[id] == Tokens(c, Apply(c, s, op).0)[id]
  {
    hide Apply, Tokens, Gives, CipherLaw, Tidy;
    TokensAfter(c, s, op);
    if other, token :| Gives(c, s, op, other, token) {
      assert other != id;
    }
  }

  lemma {:induction false} RunIsTidy(c: Config, ops: seq<Op>)
    requires CipherLaw(c)
    ensures Tidy(c, Run(c, EMPTY, ops))
    decreases |ops|
  {
    hide Apply, Tokens, Gives, CipherLaw;
    if ops != [] {
      hide Tidy;
      RunIsTidy(c, ops[..|ops| - 1]);
      TokensAfter(c, Run(c, EMPTY, ops[..|ops| - 1]), ops[|ops| - 1]);
    }
  }

  lemma NoTokens(c: Config)
    ensures Tidy(c, EMPTY) && Tokens(c, EMPTY) == map[]
  {
  }

  /** The list after adding: the account in its old place or at the end, active only as it was, or as the first. */
  predicate AddedTo(before: seq<Account>, after: seq<Account>, a: Account, place: Backend) {
    exists k :: 0 <= k < |after| && AddedAt(before, after, a, place, k)
  }

  predicate AddedAt(before: seq<Account>, after: seq<Account>, a: Account, place: Backend, k: nat)
    requires k < |after|
  {
    && after[k].id == a.id && after[k].username == a.username && after[k].refreshedAt == a.refreshedAt
    && after[k].storage == place
    && (forall j :: 0 <= j < |before| && j != k ==> j < |after| && after[j] == before[j])
    && (if k < |before| then |after| == |before| && before[k].id == a.id && after[k].isActive == before[k].isActive
        else
          && |after| == |before| + 1 && k == |before| && (forall j :: 0 <= j < |before| ==> before[j].id != a.id)
          && after[k].isActive == (before == [] || a.isActive))
  }

  lemma UpsertInPlain(accounts: seq<Account>, a: Account, place: Backend)
    ensures AddedTo(accounts, Upsert(accounts, a.(storage := place)), a, place)
  {
    var k := IndexOf(accounts, a.id);
    assert AddedAt(accounts, Upsert(accounts, a.(storage := place)), a, place, k);
  }

  /** The list after a refresh: the first entry of the account has the new name and time, all else is as before. */
  predicate Refreshed(before: seq<Account>, after: seq<Account>, a: Account) {
    && |after| == |before|
    && forall k :: 0 <= k < |before| ==>
         && after[k].id == before[k].id && after[k].isActive == before[k].isActive
         && after[k].storage == before[k].storage
         && if before[k].id == a.id && (forall j :: 0 <= j < k ==> before[j].id != a.id)
            then after[k].username == a.username && after[k].refreshedAt == a.refreshedAt
            else after[k] == before[k]
  }

  lemma TouchInPlain(accounts: seq<Account>, a: Account)
    ensures Refreshed(accounts, Touch(accounts, a), a)
  {
  }

  // ---------------------------------------------------------------- the service

  class AccountService {
    const config: Config
    /** `accounts.json`, the system keyring, `accounts.enc`. */
    var accounts: seq<Account>
    var keyring: map<string, string>
    var enc: map<string, Blob>

    function State(): Store
      reads this
    {
      Store(accounts, keyring, enc)
    }

    constructor (config: Config)
      ensures this.config == config && State() == EMPTY
    {
      this.config := config;
      accounts, keyring, enc := [], map[], map[];
    }

    method StoreRefreshToken(id: string, token: string, nonce: nat, encOk: bool) returns (r: Result<Backend, AuthError>)
      modifies this
      ensures (State(), r) == StoreToken(config, old(State()), id, token, nonce, encOk)
      ensures CipherLaw(config) && Tidy(config, old(State())) ==>
                && Tidy(config, State())
                && Tokens(config, State())
                   == if r.Ok? then Tokens(config, old(State()))[id := token] else Tokens(config, old(State()))
    {
      if CipherLaw(config) && Tidy(config, State()) {
        TiersRefineOneMap(config, State(), id, token, nonce, encOk);
      }
      if config.usesKeyring {
        keyring := keyring[id := token];
        return Ok(Keyring);
      }
      if !encOk {
        return Err(StorageIo);
      }
      enc := enc[id := config.seal(token, nonce)];
      r := Ok(EncryptedFile);
    }

    method LoadRefreshToken(id: string) returns (r: Result<string, AuthError>)
      ensures r == LoadToken(config, State(), id)
      ensures CipherLaw(config) && Tidy(config, State()) ==>
                r == if id in Tokens(config, State()) then Ok(Tokens(config, State())[id]) else Err(AccountNotFound(id))
    {
      if CipherLaw(config) && Tidy(config, State()) {
        TiersRefineOneMap(config, State(), id, "", 0, true);
      }
      if config.usesKeyring && id in keyring {
        return Ok(keyring[id]);
      }
      if id !in enc {
        return Err(AccountNotFound(id));
      }
      var plain := config.unseal(enc[id]);
      r := if plain.None? then Err(DecryptFailed) else Ok(plain.value);
    }

    method DeleteRefreshToken(id: string, encOk: bool) returns (r: Result<(), AuthError>)
      modifies this
      ensures (State(), r) == DeleteToken(config, old(State()), id, encOk)
      ensures CipherLaw(config) && Tidy(config, old(State())) ==>
                && Tidy(config, State())
                && Tokens(config, State())
                   == if r.Ok? then Tokens(config, old(State())) - {id} else Tokens(config, old(State()))
    {
      if CipherLaw(config) && Tidy(config, State()) {
        TiersRefineOneMap(config, State(), id, "", 0, encOk);
      }
      if config.usesKeyring {
        keyring := keyring - {id};
      }
      if id !in enc {
        return Ok(());
      }
      if !encOk {
        return Err(StorageIo);
      }
      enc := enc - {id};
      r := Ok(());
    }

    /** The end of the device-code flow: token first, then the account list. */
    method AddAccount(a: Account, token: string, nonce: nat, encOk: bool, saveOk: bool)
      returns (r: Result<(), AuthError>)
      modifies this
      ensures (State(), r) == Apply(config, old(State()), Add(a, token, nonce, encOk, saveOk))
      ensures r.Ok? ==> AddedTo(old(accounts), accounts, a, if config.usesKeyring then Keyring else EncryptedFile)
      ensures r.Ok? && CipherLaw(config) && Tidy(config, old(State())) ==>
                Tidy(config, State()) && Tokens(config, State()) == Tokens(config, old(State()))[a.id := token]
    {
      var stored := StoreRefreshToken(a.id, token, nonce, encOk);
      if stored.Err? {
        return Err(stored.error);
      }
      UpsertInPlain(accounts, a, stored.value);
      var list := accounts;
      var persist := a.(storage := stored.value);
      if list == [] {
        persist := persist.(isActive := true);
      }
      var k := IndexOf(list, persist.id);
      if k < |list| {
        persist := persist.(isActive := list[k].isActive);
        list := list[k := persist];
      } else {
        list := list + [persist];
      }
      if !saveOk {
        return Err(StorageIo);
      }
      accounts := list;
      r := Ok(());
    }

    method RemoveAccount(id: string, encOk: bool, saveOk: bool) returns (r: Result<(), AuthError>)
      modifies this
      ensures (State(), r) == Apply(config, old(State()), Remove(id, encOk, saveOk))
      ensures r.Ok? ==> forall a :: a in accounts <==> a in old(accounts) && a.id != id
      ensures r.Ok? && CipherLaw(config) && Tidy(config, old(State())) ==>
                Tidy(config, State()) && Tokens(config, State()) == Tokens(config, old(State())) - {id}
    {
      var deleted := DeleteRefreshToken(id, encOk);
      if deleted.Err? {
        return deleted;
      }
      var filtered := Without(accounts, id);
      if !saveOk {
        return Err(StorageIo);
      }
      accounts := filtered;
      r := Ok(());
    }

    method ActivateAccount(id: string, saveOk: bool) returns (r: Result<(), AuthError>)
      modifies this
      ensures (State(), r) == Apply(config, old(State()), Activate(id, saveOk))
      ensures r.Ok? ==>
                && |accounts| == |old(accounts)|
                && (exists k :: 0 <= k < |accounts| && accounts[k].id == id)
                && forall k :: 0 <= k < |accounts| ==>
                     accounts[k] == old(accounts)[k].(isActive := old(accounts)[k].id == id)
      ensures keyring == old(keyring) && enc == old(enc)
    {
      var list := accounts;
      var found := false;
      for i := 0 to |list|
        invariant |list| == |accounts| && accounts == old(accounts)
        invariant forall k :: 0 <= k < i ==> list[k] == accounts[k].(isActive := accounts[k].id == id)
        invariant forall k :: i <= k < |list| ==> list[k] == accounts[k]
        invariant found <==> exists k :: 0 <= k < i && accounts[k].id == id
      {
        if list[i].id == id {
          list := list[i := list[i].(isActive := true)];
          found := true;
        } else {
          list := list[i := list[i].(isActive := false)];
        }
      }
      ListedIffPresent(accounts);
      assert list == OnlyActive(accounts, id);
      if !found {
        return Err(AccountNotFound(id));
      }
      if !saveOk {
        return Err(StorageIo);
      }
      accounts := list;
      r := Ok(());
    }

    /** Launch time: the stored token is exchanged for a new one before the account list is touched. */
    method ResolveTokensForLaunch(id: string, chain: string -> Option<(Account, string)>, nonce: nat, encOk: bool,
                                  saveOk: bool)
      returns (r: Result<(), AuthError>)
      modifies this
      ensures var token := LoadToken(config, old(State()), id);
              var output := if token.Ok? then chain(token.value) else None;
              (State(), r) == Apply(config, old(State()), Refresh(id, output, nonce, encOk, saveOk))
      ensures r.Ok? ==>
                && LoadToken(config, old(State()), id).Ok?
                && var output := chain(LoadToken(config, old(State()), id).value);
                   output.Some? && Refreshed(old(accounts), accounts, output.value.0)
      ensures r.Ok? && CipherLaw(config) && Tidy(config, old(State())) ==>
                && id in Tokens(config, old(State()))
                && var output := chain(Tokens(config, old(State()))[id]);
                   && output.Some? && Tidy(config, State())
                   && Tokens(config, State()) == Tokens(config, old(State()))[output.value.0.id := output.value.1]
    {
      var token := LoadRefreshToken(id);
      if token.Err? {
        return Err(token.error);
      }
      var output := chain(token.value);
      if output.None? {
        return Err(ChainFailed);
      }
      var (a, rotated) := output.value;
      var stored := StoreRefreshToken(a.id, rotated, nonce, encOk);
      if stored.Err? {
        return Err(stored.error);
      }
      TouchInPlain(accounts, a);
      var list := accounts;
      var k := IndexOf(list, a.id);
      if k < |list| {
        list := list[k := list[k].(username := a.username, refreshedAt := a.refreshedAt)];
      }
      if !saveOk {
        return Err(StorageIo);
      }
      accounts := list;
      r := Ok(());
    }
  }
}
