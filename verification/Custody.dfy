/** On-chain custody: one balance per owner and mint, one token vault per mint. */
module Custody {
  import opened SortedEntries

  const U64_MAX := 0xFFFF_FFFF_FFFF_FFFF

  datatype Asset = Asset(enabled: bool, vault: nat)

  datatype Balance = Balance(owner: string, mint: string, available: nat, locked: nat)

  /** A token account outside the exchange. */
  datatype Wallet = Wallet(owner: string, mint: string, amount: nat)

  datatype Error =
    | NoAccount | AssetDisabled | MintMismatch | WrongOwner | SameAccount | InvalidAmount | ExchangePaused
    | InsufficientAvailable | InsufficientLocked | TokenInsufficientFunds | TokenOverflow | MathOverflow

  /** Accounts are named by their position, which never changes. */
  datatype State = State(paused: bool, assets: map<string, Asset>, balances: seq<Balance>, wallets: seq<Wallet>)

  /** Donate is a plain token transfer into a vault, which the program neither sees nor can prevent. */
  datatype Instruction =
    | Deposit(user: string, mint: string, wallet: nat, amount: nat)
    | Withdraw(user: string, mint: string, wallet: nat, amount: nat)
    | Lock(balance: nat, amount: nat)
    | Unlock(balance: nat, amount: nat)
    | SettleTransfer(from: nat, to: nat, amount: nat, fromLocked: bool)
    | SetPaused(paused: bool)
    | SetEnabled(mint: string, enabled: bool)
    | Donate(wallet: nat, amount: nat)

  // ---- what is owed and what is there

  ghost function Owed(mint: string, bs: seq<Balance>): nat {
    if bs == [] then 0
    else (if bs[0].mint == mint then bs[0].available + bs[0].locked else 0) + Owed(mint, bs[1..])
  }

  ghost function InWallets(mint: string, ws: seq<Wallet>): nat {
    if ws == [] then 0 else (if ws[0].mint == mint then ws[0].amount else 0) + InWallets(mint, ws[1..])
  }

  ghost function Vault(s: State, mint: string): nat {
    if mint in s.assets then s.assets[mint].vault else 0
  }

  /** Tokens in the vault that no balance accounts for. */
  ghost function Surplus(s: State, mint: string): int { Vault(s, mint) - Owed(mint, s.balances) }

  ghost predicate Solvent(s: State) {
    forall mint :: Owed(mint, s.balances) <= Vault(s, mint)
  }

  /** No more tokens of a mint exist than a token program can count. */
  ghost predicate Supplied(s: State) {
    forall mint :: InWallets(mint, s.wallets) + Vault(s, mint) <= U64_MAX
  }

  /** A balance account is addressed by its owner and mint. */
  ghost predicate Unique(bs: seq<Balance>) {
    forall i, j :: 0 <= i < j < |bs| ==> bs[i].owner != bs[j].owner || bs[i].mint != bs[j].mint
  }

  ghost predicate Sound(s: State) {
    Solvent(s) && Supplied(s) && Unique(s.balances)
  }

  // ---- the instructions

  /** Index of the balance of an owner and mint, or the number of balances. */
  ghost function PlaceOf(bs: seq<Balance>, owner: string, mint: string): (i: nat)
    ensures i <= |bs| && (i < |bs| ==> bs[i].owner == owner && bs[i].mint == mint)
    ensures forall j :: 0 <= j < i ==> bs[j].owner != owner || bs[j].mint != mint
  {
    if bs == [] || (bs[0].owner == owner && bs[0].mint == mint) then 0 else 1 + PlaceOf(bs[1..], owner, mint)
  }

  ghost function WalletRefusal(s: State, user: string, mint: string, w: nat): Option<Error>
    requires w < |s.wallets|
  {
    if s.wallets[w].mint != mint then Some(MintMismatch)
    else if s.wallets[w].owner != user then Some(WrongOwner)
    else None
  }

  /** Why an instruction fails. Neither an overflow nor a short vault is among the reasons. */
  ghost function Refusal(s: State, ix: Instruction): Option<Error> {
    match ix
    case Deposit(user, mint, w, amount) =>
      if mint !in s.assets || w >= |s.wallets| then Some(NoAccount)
      else if !s.assets[mint].enabled then Some(AssetDisabled)
      else if WalletRefusal(s, user, mint, w).Some? then WalletRefusal(s, user, mint, w)
      else if amount == 0 then Some(InvalidAmount)
      else if s.paused then Some(ExchangePaused)
      else if s.wallets[w].amount < amount then Some(TokenInsufficientFunds)
      else None
    case Withdraw(user, mint, w, amount) =>
      var i := PlaceOf(s.balances, user, mint);
      if mint !in s.assets || w >= |s.wallets| || i >= |s.balances| then Some(NoAccount)
      else if WalletRefusal(s, user, mint, w).Some? then WalletRefusal(s, user, mint, w)
      else if amount == 0 then Some(InvalidAmount)
      else if s.balances[i].available < amount then Some(InsufficientAvailable)
      else None
    case Lock(i, amount) =>
      if i >= |s.balances| then Some(NoAccount)
      else if amount == 0 then Some(InvalidAmount)
      else if s.balances[i].available < amount then Some(InsufficientAvailable)
      else None
    case Unlock(i, amount) =>
      if i >= |s.balances| then Some(NoAccount)
      else if amount == 0 then Some(InvalidAmount)
      else if s.balances[i].locked < amount then Some(InsufficientLocked)
      else None
    case SettleTransfer(i, j, amount, fromLocked) =>
      if i >= |s.balances| || j >= |s.balances| then Some(NoAccount)
      else if i == j then Some(SameAccount)
      else if s.balances[i].mint != s.balances[j].mint then Some(MintMismatch)
      else if amount == 0 then Some(InvalidAmount)
      else if fromLocked && s.balances[i].locked < amount then Some(InsufficientLocked)
      else if !fromLocked && s.balances[i].available < amount then Some(InsufficientAvailable)
      else None
    case SetPaused(_) => None
    case SetEnabled(mint, _) => if mint !in s.assets then Some(NoAccount) else None
    case Donate(w, amount) =>
      if w >= |s.wallets| || s.wallets[w].mint !in s.assets then Some(NoAccount)
      else if s.wallets[w].amount < amount then Some(TokenInsufficientFunds)
      else None
  }

  function Move(s: State, w: nat, amount: int): State
    requires w < |s.wallets| && s.wallets[w].mint in s.assets
    requires s.assets[s.wallets[w].mint].vault + amount >= 0 && s.wallets[w].amount - amount >= 0
  {
    var mint := s.wallets[w].mint;
    s.(assets := s.assets[mint := s.assets[mint].(vault := s.assets[mint].vault + amount)],
       wallets := s.wallets[w := s.wallets[w].(amount := s.wallets[w].amount - amount)])
  }

  /** The new state of an instruction that is not refused. */
  ghost function After(s: State, ix: Instruction): State
    requires Sound(s) && Refusal(s, ix).None?
  {
    var bs := s.balances;
    match ix
    case Deposit(user, mint, w, amount) =>
      var i := PlaceOf(bs, user, mint);
      Move(s, w, amount).(balances :=
        if i < |bs| then bs[i := bs[i].(available := bs[i].available + amount)] else bs + [Balance(user, mint, amount, 0)])
    case Withdraw(user, mint, w, amount) =>
      var i := PlaceOf(bs, user, mint);
      OwedBounds(mint, bs, i);
      Move(s, w, 0 - amount).(balances := bs[i := bs[i].(available := bs[i].available - amount)])
    case Lock(i, amount) =>
      s.(balances := bs[i := bs[i].(available := bs[i].available - amount, locked := bs[i].locked + amount)])
    case Unlock(i, amount) =>
      s.(balances := bs[i := bs[i].(available := bs[i].available + amount, locked := bs[i].locked - amount)])
    case SettleTransfer(i, j, amount, fromLocked) =>
      var from := if fromLocked then bs[i].(locked := bs[i].locked - amount) else bs[i].(available := bs[i].available - amount);
      s.(balances := bs[i := from][j := bs[j].(available := bs[j].available + amount)])
    case SetPaused(p) => s.(paused := p)
    case SetEnabled(mint, e) => s.(assets := s.assets[mint := s.assets[mint].(enabled := e)])
    case Donate(w, amount) => Move(s, w, amount)
  }

  // ---- sums over balances and wallets

  lemma {:induction false} OwedBounds(mint: string, bs: seq<Balance>, i: nat)
    requires i < |bs| && bs[i].mint == mint
    ensures bs[i].available + bs[i].locked <= Owed(mint, bs)
  {
    if i > 0 {
      OwedBounds(mint, bs[1..], i - 1);
    }
  }

  lemma {:induction false} OwedUpdate(mint: string, bs: seq<Balance>, i: nat, b: Balance)
    requires i < |bs| && b.mint == bs[i].mint
    ensures Owed(mint, bs[i := b]) == Owed(mint, bs)
              + if b.mint == mint then b.available + b.locked - bs[i].available - bs[i].locked else 0
  {
    var r := bs[i := b];
    if i == 0 {
      assert r[1..] == bs[1..];
    } else {
      assert r[1..] == bs[1..][i - 1 := b];
      OwedUpdate(mint, bs[1..], i - 1, b);
    }
  }

  lemma {:induction false} OwedAppend(mint: string, bs: seq<Balance>, b: Balance)
    ensures Owed(mint, bs + [b]) == Owed(mint, bs) + if b.mint == mint then b.available + b.locked else 0
  {
    if bs == [] {
      assert bs + [b] == [b];
    } else {
      assert (bs + [b])[1..] == bs[1..] + [b];
      OwedAppend(mint, bs[1..], b);
    }
  }

  lemma {:induction false} WalletsUpdate(mint: string, ws: seq<Wallet>, i: nat, w: Wallet)
    requires i < |ws| && w.mint == ws[i].mint
    ensures InWallets(mint, ws[i := w]) == InWallets(mint, ws) + if w.mint == mint then w.amount - ws[i].amount else 0
  {
    var r := ws[i := w];
    if i == 0 {
      assert r[1..] == ws[1..];
    } else {
      assert r[1..] == ws[1..][i - 1 := w];
      WalletsUpdate(mint, ws[1..], i - 1, w);
    }
  }

  // ---- every instruction keeps the exchange solvent

  ghost function Donated(s: State, ix: Instruction, mint: string): int {
    if ix.Donate? && ix.wallet < |s.wallets| && s.wallets[ix.wallet].mint == mint then ix.amount else 0
  }

  lemma {:induction false} DepositSurplus(s: State, ix: Instruction, mint: string)
    requires Sound(s) && ix.Deposit? && Refusal(s, ix).None?
    ensures Surplus(After(s, ix), mint) == Surplus(s, mint)
  {
    var bs, i := s.balances, PlaceOf(s.balances, ix.user, ix.mint);
    if i < |bs| {
      OwedUpdate(mint, bs, i, bs[i].(available := bs[i].available + ix.amount));
    } else {
      OwedAppend(mint, bs, Balance(ix.user, ix.mint, ix.amount, 0));
    }
    hide Owed;
  }

  lemma {:induction false} WithdrawSurplus(s: State, ix: Instruction, mint: string)
    requires Sound(s) && ix.Withdraw? && Refusal(s, ix).None?
    ensures Surplus(After(s, ix), mint) == Surplus(s, mint)
  {
    var bs, i := s.balances, PlaceOf(s.balances, ix.user, ix.mint);
    OwedUpdate(mint, bs, i, bs[i].(available := bs[i].available - ix.amount));
    hide Owed;
  }

  lemma {:induction false} InsideSurplus(s: State, ix: Instruction, mint: string)
    requires Sound(s) && (ix.Lock? || ix.Unlock? || ix.SettleTransfer?) && Refusal(s, ix).None?
    ensures Surplus(After(s, ix), mint) == Surplus(s, mint)
  {
    var s' := After(s, ix);
    if ix.SettleTransfer? {
      OwedSettle(mint, s.balances, ix.from, ix.to, ix.amount, ix.fromLocked);
    } else {
      OwedUpdate(mint, s.balances, ix.balance, s'.balances[ix.balance]);
    }
    hide Owed;
  }

  lemma {:induction false} OutsideSurplus(s: State, ix: Instruction, mint: string)
    requires Sound(s) && (ix.SetPaused? || ix.SetEnabled? || ix.Donate?) && Refusal(s, ix).None?
    ensures Surplus(After(s, ix), mint) == Surplus(s, mint) + Donated(s, ix, mint)
  {
    hide Owed;
  }

  /** The surplus of a vault grows by what is donated to it and by nothing else. */
  lemma {:induction false} SurplusIsDonated(s: State, ix: Instruction, mint: string)
    requires Sound(s) && Refusal(s, ix).None?
    ensures Surplus(After(s, ix), mint) == Surplus(s, mint) + Donated(s, ix, mint)
  {
    hide Sound, Surplus, After, Refusal;
    match ix
    case Deposit(_, _, _, _) => DepositSurplus(s, ix, mint);
    case Withdraw(_, _, _, _) => WithdrawSurplus(s, ix, mint);
    case Lock(_, _) => InsideSurplus(s, ix, mint);
    case Unlock(_, _) => InsideSurplus(s, ix, mint);
    case SettleTransfer(_, _, _, _) => InsideSurplus(s, ix, mint);
    case _ => OutsideSurplus(s, ix, mint);
  }

  /** The two balances of a settlement change by opposite amounts. */
  lemma {:induction false} OwedSettle(mint: string, bs: seq<Balance>, i: nat, j: nat, amount: nat, fromLocked: bool)
    requires i < |bs| && j < |bs| && i != j && bs[i].mint == bs[j].mint
    requires amount <= if fromLocked then bs[i].locked else bs[i].available
    ensures var from := if fromLocked then bs[i].(locked := bs[i].locked - amount) else bs[i].(available := bs[i].available - amount);
            Owed(mint, bs[i := from][j := bs[j].(available := bs[j].available + amount)]) == Owed(mint, bs)
  {
    var from := if fromLocked then bs[i].(locked := bs[i].locked - amount) else bs[i].(available := bs[i].available - amount);
    OwedUpdate(mint, bs, i, from);
    OwedUpdate(mint, bs[i := from], j, bs[j].(available := bs[j].available + amount));
    hide Owed;
  }

  /** Tokens only change hands. */
  lemma {:induction false} SupplyIsKept(s: State, ix: Instruction, mint: string)
    requires Sound(s) && Refusal(s, ix).None?
    ensures InWallets(mint, After(s, ix).wallets) + Vault(After(s, ix), mint) == InWallets(mint, s.wallets) + Vault(s, mint)
  {
    var s' := After(s, ix);
    if ix.Deposit? || ix.Withdraw? || ix.Donate? {
      WalletsUpdate(mint, s.wallets, ix.wallet, s'.wallets[ix.wallet]);
    }
    hide InWallets;
  }

  lemma {:induction false} UniqueIsKept(s: State, ix: Instruction)
    requires Sound(s) && Refusal(s, ix).None?
    ensures Unique(After(s, ix).balances)
  {
    if ix.Deposit? {
      var i := PlaceOf(s.balances, ix.user, ix.mint);
    }
  }

  /** Every instruction keeps every vault able to pay what is owed. */
  lemma {:induction false} SoundIsKept(s: State, ix: Instruction)
    requires Sound(s) && Refusal(s, ix).None?
    ensures Sound(After(s, ix))
  {
    var s' := After(s, ix);
    forall mint ensures Owed(mint, s'.balances) <= Vault(s', mint) {
      SurplusIsDonated(s, ix, mint);
    }
    forall mint ensures InWallets(mint, s'.wallets) + Vault(s', mint) <= U64_MAX {
      SupplyIsKept(s, ix, mint);
    }
    UniqueIsKept(s, ix);
    hide After, Refusal, Unique, Owed, InWallets;
  }

  ghost function Next(s: State, ix: Instruction): State
    requires Sound(s)
  {
    if Refusal(s, ix).None? then After(s, ix) else s
  }

  lemma {:induction false} NextIsSound(s: State, ix: Instruction)
    requires Sound(s)
    ensures Sound(Next(s, ix))
  {
    if Refusal(s, ix).None? {
      SoundIsKept(s, ix);
    }
  }

  // ---- transactions and runs

  /** A transaction is all or nothing. */
  ghost function Tx(s: State, ixs: seq<Instruction>): (r: Option<State>)
    requires Sound(s)
    ensures r.Some? ==> Sound(r.value)
  {
    if ixs == [] then Some(s)
    else
      match Tx(s, ixs[..|ixs| - 1])
      case None => None
      case Some(mid) =>
        if Refusal(mid, ixs[|ixs| - 1]).Some? then None
        else
          SoundIsKept(mid, ixs[|ixs| - 1]);
          Some(After(mid, ixs[|ixs| - 1]))
  }

  ghost function DonatedBy(s: State, ixs: seq<Instruction>, mint: string): int
    requires Sound(s) && Tx(s, ixs).Some?
  {
    if ixs == [] then 0
    else DonatedBy(s, ixs[..|ixs| - 1], mint) + Donated(Tx(s, ixs[..|ixs| - 1]).value, ixs[|ixs| - 1], mint)
  }

  lemma {:induction false} TxSurplus(s: State, ixs: seq<Instruction>, mint: string)
    requires Sound(s) && Tx(s, ixs).Some?
    ensures Surplus(Tx(s, ixs).value, mint) == Surplus(s, mint) + DonatedBy(s, ixs, mint)
    ensures DonatedBy(s, ixs, mint) >= 0
  {
    if ixs != [] {
      TxSurplus(s, ixs[..|ixs| - 1], mint);
      SurplusIsDonated(Tx(s, ixs[..|ixs| - 1]).value, ixs[|ixs| - 1], mint);
    }
    hide Surplus, After, Sound;
  }

  /** The state after a run of transactions, the failed ones rolled back. */
  ghost function Run(s: State, txs: seq<seq<Instruction>>): (r: State)
    requires Sound(s)
    ensures Sound(r)
  {
    if txs == [] then s
    else
      var mid := Run(s, txs[..|txs| - 1]);
      if Tx(mid, txs[|txs| - 1]).Some? then Tx(mid, txs[|txs| - 1]).value else mid
  }

  ghost function DonatedInRun(s: State, txs: seq<seq<Instruction>>, mint: string): int
    requires Sound(s)
  {
    if txs == [] then 0
    else
      var mid := Run(s, txs[..|txs| - 1]);
      DonatedInRun(s, txs[..|txs| - 1], mint)
        + if Tx(mid, txs[|txs| - 1]).Some? then DonatedBy(mid, txs[|txs| - 1], mint) else 0
  }

  /** Over every run, per mint: vault = available + locked over all balances + what outsiders sent to it. */
  lemma {:induction false} RunIsSolvent(s: State, txs: seq<seq<Instruction>>, mint: string)
    requires Sound(s) && s.balances == [] && Vault(s, mint) == 0
    ensures var s' := Run(s, txs);
            && Vault(s', mint) == Owed(mint, s'.balances) + DonatedInRun(s, txs, mint)
            && DonatedInRun(s, txs, mint) >= 0
  {
    if txs != [] {
      RunIsSolvent(s, txs[..|txs| - 1], mint);
      var mid := Run(s, txs[..|txs| - 1]);
      if Tx(mid, txs[|txs| - 1]).Some? {
        TxSurplus(mid, txs[|txs| - 1], mint);
      }
    }
    hide Tx, DonatedBy;
  }

  lemma {:induction false} SettlementStep(s: State, ix: Instruction, mint: string)
    requires Sound(s) && Refusal(s, ix).None? && (ix.Lock? || ix.Unlock? || ix.SettleTransfer?)
    ensures var s' := After(s, ix);
            && Owed(mint, s'.balances) == Owed(mint, s.balances)
            && s'.assets == s.assets && s'.wallets == s.wallets && |s'.balances| == |s.balances|
  {
    SurplusIsDonated(s, ix, mint);
    hide Owed, Sound;
  }

  /** A trade settled in several legs, with its fees, only redistributes what users own: nothing enters or leaves. */
  lemma {:induction false} SettlementRedistributes(s: State, ixs: seq<Instruction>, mint: string)
    requires Sound(s) && Tx(s, ixs).Some? && forall ix :: ix in ixs ==> ix.Lock? || ix.Unlock? || ix.SettleTransfer?
    ensures var s' := Tx(s, ixs).value;
            && Owed(mint, s'.balances) == Owed(mint, s.balances)
            && s'.assets == s.assets && s'.wallets == s.wallets && |s'.balances| == |s.balances|
  {
    if ixs != [] {
      SettlementRedistributes(s, ixs[..|ixs| - 1], mint);
      var mid, ix := Tx(s, ixs[..|ixs| - 1]).value, ixs[|ixs| - 1];
      assert ix in ixs;
      SettlementStep(mid, ix, mint);
    }
    hide Sound, Owed, After, Refusal;
  }

  // ---- what solvency buys

  /** No balance is ever beyond what a 64-bit counter holds, nor would be after any credit the code makes. */
  lemma {:induction false} BalancesFit(s: State, i: nat)
    requires Sound(s) && i < |s.balances|
    ensures s.balances[i].available + s.balances[i].locked <= Vault(s, s.balances[i].mint) <= U64_MAX
  {
    OwedBounds(s.balances[i].mint, s.balances, i);
    assert InWallets(s.balances[i].mint, s.wallets) + Vault(s, s.balances[i].mint) <= U64_MAX;
  }

  /** The balance at i is the one its owner and mint lead to. */
  lemma {:induction false} PlaceIs(bs: seq<Balance>, i: nat)
    requires Unique(bs) && i < |bs|
    ensures PlaceOf(bs, bs[i].owner, bs[i].mint) == i
  {
    if i > 0 {
      assert bs[0].owner != bs[i].owner || bs[0].mint != bs[i].mint;
      assert Unique(bs[1..]);
      PlaceIs(bs[1..], i - 1);
    }
  }

  lemma {:induction false} OwedIsListed(s: State, i: nat)
    requires Sound(s) && i < |s.balances| && s.balances[i].available > 0
    ensures s.balances[i].mint in s.assets
  {
    OwedBounds(s.balances[i].mint, s.balances, i);
    assert Owed(s.balances[i].mint, s.balances) <= Vault(s, s.balances[i].mint);
  }

  /** Withdrawing succeeds exactly when the account has the amount available; the vault never falls short, and it makes
      no difference whether the exchange is paused or the asset disabled. */
  lemma {:induction false} WithdrawIff(s: State, i: nat, w: nat, amount: nat)
    requires Sound(s) && i < |s.balances| && w < |s.wallets|
    requires s.wallets[w].owner == s.balances[i].owner && s.wallets[w].mint == s.balances[i].mint
    ensures Refusal(s, Withdraw(s.balances[i].owner, s.balances[i].mint, w, amount)).None? <==> 0 < amount <= s.balances[i].available
  {
    PlaceIs(s.balances, i);
    if 0 < amount <= s.balances[i].available {
      OwedIsListed(s, i);
    }
  }

  // ---- what each instruction does, account by account

  /** What an owner can dispose of in a mint; nothing without an account. */
  ghost function Available(s: State, owner: string, mint: string): int {
    var i := PlaceOf(s.balances, owner, mint);
    if i < |s.balances| then s.balances[i].available else 0
  }

  ghost function Locked(s: State, owner: string, mint: string): int {
    var i := PlaceOf(s.balances, owner, mint);
    if i < |s.balances| then s.balances[i].locked else 0
  }

  /** The balances found where they stand. */
  lemma {:induction false} FundsAt(s: State, i: nat)
    requires Unique(s.balances) && i < |s.balances|
    ensures var b := s.balances[i]; Available(s, b.owner, b.mint) == b.available && Locked(s, b.owner, b.mint) == b.locked
  {
    PlaceIs(s.balances, i);
    hide PlaceOf;
  }

  lemma {:induction false} PlaceSame(bs: seq<Balance>, bs': seq<Balance>, owner: string, mint: string)
    requires |bs| == |bs'| && forall k :: 0 <= k < |bs| ==> bs'[k].owner == bs[k].owner && bs'[k].mint == bs[k].mint
    ensures PlaceOf(bs', owner, mint) == PlaceOf(bs, owner, mint)
  {
    if bs != [] {
      PlaceSame(bs[1..], bs'[1..], owner, mint);
    }
  }

  lemma {:induction false} PlaceAppend(bs: seq<Balance>, b: Balance, owner: string, mint: string)
    ensures PlaceOf(bs + [b], owner, mint)
            == if PlaceOf(bs, owner, mint) < |bs| || (b.owner == owner && b.mint == mint) then PlaceOf(bs, owner, mint) else |bs| + 1
  {
    if bs == [] {
      assert bs + [b] == [b] && [b][1..] == [];
    } else {
      assert (bs + [b])[0] == bs[0] && (bs + [b])[1..] == bs[1..] + [b];
      PlaceAppend(bs[1..], b, owner, mint);
    }
  }

  /** A deposit is accepted exactly for a positive amount of the owner's, of an enabled asset, while nothing is paused. */
  lemma {:induction false} DepositIff(s: State, user: string, mint: string, w: nat, amount: nat)
    requires w < |s.wallets| && mint in s.assets && s.wallets[w].owner == user && s.wallets[w].mint == mint
    ensures Refusal(s, Deposit(user, mint, w, amount)).None?
            <==> s.assets[mint].enabled && !s.paused && 0 < amount <= s.wallets[w].amount
  {
  }

  /** It can be disposed of at once; nobody else's funds change. */
  lemma {:induction false} DepositCredits(s: State, user: string, mint: string, w: nat, amount: nat, owner: string, m: string)
    requires Sound(s) && Refusal(s, Deposit(user, mint, w, amount)).None?
    ensures var s' := After(s, Deposit(user, mint, w, amount));
            && Available(s', owner, m) == Available(s, owner, m) + (if owner == user && m == mint then amount else 0)
            && Locked(s', owner, m) == Locked(s, owner, m)
            && s'.wallets == s.wallets[w := s.wallets[w].(amount := s.wallets[w].amount - amount)]
            && Vault(s', m) == Vault(s, m) + if m == mint then amount else 0
  {
    hide Sound, PlaceOf;
    var s', i := After(s, Deposit(user, mint, w, amount)), PlaceOf(s.balances, user, mint);
    if i < |s.balances| {
      PlaceSame(s.balances, s'.balances, owner, m);
    } else {
      PlaceAppend(s.balances, Balance(user, mint, amount, 0), owner, m);
    }
  }

  lemma {:induction false} WithdrawDebits(s: State, user: string, mint: string, w: nat, amount: nat, owner: string, m: string)
    requires Sound(s) && Refusal(s, Withdraw(user, mint, w, amount)).None?
    ensures var s' := After(s, Withdraw(user, mint, w, amount));
            && Available(s', owner, m) == Available(s, owner, m) - (if owner == user && m == mint then amount else 0)
            && Locked(s', owner, m) == Locked(s, owner, m)
            && s'.wallets == s.wallets[w := s.wallets[w].(amount := s.wallets[w].amount + amount)]
            && Vault(s', m) == Vault(s, m) - if m == mint then amount else 0
  {
    var s' := After(s, Withdraw(user, mint, w, amount));
    PlaceSame(s.balances, s'.balances, owner, m);
    hide Sound, PlaceOf;
  }

  /** What is locked cannot be disposed of any more; nobody else's funds change. */
  lemma {:induction false} LockMoves(s: State, i: nat, amount: nat, owner: string, m: string)
    requires Sound(s) && i < |s.balances|
    ensures Refusal(s, Lock(i, amount)).None? <==> 0 < amount <= s.balances[i].available
    ensures Refusal(s, Lock(i, amount)).None? ==>
              var s', mine := After(s, Lock(i, amount)), owner == s.balances[i].owner && m == s.balances[i].mint;
              && Available(s', owner, m) == Available(s, owner, m) - (if mine then amount else 0)
              && Locked(s', owner, m) == Locked(s, owner, m) + if mine then amount else 0
  {
    if Refusal(s, Lock(i, amount)).None? {
      PlaceSame(s.balances, After(s, Lock(i, amount)).balances, owner, m);
    }
    PlaceIs(s.balances, i);
    hide PlaceOf;
  }

  lemma {:induction false} UnlockMoves(s: State, i: nat, amount: nat, owner: string, m: string)
    requires Sound(s) && i < |s.balances|
    ensures Refusal(s, Unlock(i, amount)).None? <==> 0 < amount <= s.balances[i].locked
    ensures Refusal(s, Unlock(i, amount)).None? ==>
              var s', mine := After(s, Unlock(i, amount)), owner == s.balances[i].owner && m == s.balances[i].mint;
              && Available(s', owner, m) == Available(s, owner, m) + (if mine then amount else 0)
              && Locked(s', owner, m) == Locked(s, owner, m) - if mine then amount else 0
  {
    if Refusal(s, Unlock(i, amount)).None? {
      PlaceSame(s.balances, After(s, Unlock(i, amount)).balances, owner, m);
    }
    PlaceIs(s.balances, i);
    hide PlaceOf;
  }

  /** A settlement is accepted exactly between two accounts of one mint, for a positive amount the chosen bucket holds. */
  lemma {:induction false} TransferIff(s: State, i: nat, j: nat, amount: nat, fromLocked: bool)
    requires Sound(s)
    ensures Refusal(s, SettleTransfer(i, j, amount, fromLocked)).None?
       <==> && i < |s.balances| && j < |s.balances| && i != j && s.balances[i].mint == s.balances[j].mint
            && 0 < amount <= if fromLocked then s.balances[i].locked else s.balances[i].available
  {
  }

  /** A settlement takes the amount from what the payer has locked, or from what it can dispose of, as it was told; the receiver
      can dispose of it; nobody else's funds change. */
  lemma {:induction false} SettlePays(s: State, i: nat, j: nat, amount: nat, fromLocked: bool, owner: string, m: string)
    requires Sound(s) && Refusal(s, SettleTransfer(i, j, amount, fromLocked)).None?
    ensures i < |s.balances| && j < |s.balances| && i != j && s.balances[i].mint == s.balances[j].mint
    ensures var s', a, b := After(s, SettleTransfer(i, j, amount, fromLocked)), s.balances[i], s.balances[j];
            var payer, receiver := owner == a.owner && m == a.mint, owner == b.owner && m == b.mint;
            && !(payer && receiver)
            && Available(s', owner, m) == Available(s, owner, m) + (if receiver then amount else 0) - (if payer && !fromLocked then amount else 0)
            && Locked(s', owner, m) == Locked(s, owner, m) - if payer && fromLocked then amount else 0
  {
    hide PlaceOf, Solvent, Supplied;
    var s' := After(s, SettleTransfer(i, j, amount, fromLocked));
    PlaceSame(s.balances, s'.balances, owner, m);
    PlaceIs(s.balances, i);
    PlaceIs(s.balances, j);
  }

  /** So the receiver can take out what it had and what it was paid, up to the last token. */
  lemma {:induction false} PaidCanLeave(s: State, i: nat, j: nat, amount: nat, fromLocked: bool, w: nat, out: nat)
    requires Sound(s) && Refusal(s, SettleTransfer(i, j, amount, fromLocked)).None? && w < |s.wallets| && j < |s.balances|
    requires s.wallets[w].owner == s.balances[j].owner && s.wallets[w].mint == s.balances[j].mint
    ensures Refusal(After(s, SettleTransfer(i, j, amount, fromLocked)), Withdraw(s.balances[j].owner, s.balances[j].mint, w, out)).None?
            <==> 0 < out <= s.balances[j].available + amount
  {
    var ix := SettleTransfer(i, j, amount, fromLocked);
    var s', b := After(s, ix), s.balances[j];
    SoundIsKept(s, ix);
    SettlePays(s, i, j, amount, fromLocked, b.owner, b.mint);
    FundsAt(s, j);
    FundsAt(s', j);
    WithdrawIff(s', j, w, out);
    hide Sound, PlaceOf, Available, Locked;
  }

  /** What was deposited can be taken out again, and that leaves everybody as before. */
  lemma {:induction false} DepositThenWithdraw(s: State, user: string, mint: string, w: nat, amount: nat, owner: string, m: string)
    requires Sound(s) && Refusal(s, Deposit(user, mint, w, amount)).None?
    ensures var s', back := After(s, Deposit(user, mint, w, amount)), Withdraw(user, mint, w, amount);
            && Sound(s') && Refusal(s', back).None? && After(s', back).wallets == s.wallets && Vault(After(s', back), m) == Vault(s, m)
            && Available(After(s', back), owner, m) == Available(s, owner, m) && Locked(After(s', back), owner, m) == Locked(s, owner, m)
  {
    hide Sound, PlaceOf, Available, Locked, After, Refusal, Vault;
    var ix, back := Deposit(user, mint, w, amount), Withdraw(user, mint, w, amount);
    var s' := After(s, ix);
    SoundIsKept(s, ix);
    DepositIsThere(s, user, mint, w, amount);
    DepositCredits(s, user, mint, w, amount, owner, m);
    WithdrawDebits(s', user, mint, w, amount, owner, m);
    var x := s.wallets[w];
    assert s.wallets[w := x.(amount := x.amount - amount)][w := x] == s.wallets;
  }

  lemma {:induction false} DepositIsThere(s: State, user: string, mint: string, w: nat, amount: nat)
    requires Sound(s) && Refusal(s, Deposit(user, mint, w, amount)).None? && Sound(After(s, Deposit(user, mint, w, amount)))
    ensures w < |s.wallets| && amount <= s.wallets[w].amount
    ensures Refusal(After(s, Deposit(user, mint, w, amount)), Withdraw(user, mint, w, amount)).None?
  {
    var s' := After(s, Deposit(user, mint, w, amount));
    var i := PlaceOf(s.balances, user, mint);
    if i < |s.balances| {
      PlaceSame(s.balances, s'.balances, user, mint);
    } else {
      PlaceAppend(s.balances, Balance(user, mint, amount, 0), user, mint);
    }
    hide Sound, PlaceOf;
  }

  /** Pausing the exchange and disabling an asset stop deposits and nothing else. */
  lemma {:induction false} SwitchesStopDeposits(s: State, ix: Instruction, paused: bool, mint: string, enabled: bool)
    requires mint in s.assets
    ensures var s' := s.(paused := paused, assets := s.assets[mint := s.assets[mint].(enabled := enabled)]);
            && (!ix.Deposit? ==> Refusal(s', ix) == Refusal(s, ix))
            && (ix.Deposit? && (paused || (ix.mint == mint && !enabled)) ==> Refusal(s', ix).Some?)
  {
    hide PlaceOf;
  }

  /** Everyone up to n takes out everything available, each into a wallet of their own. */
  ghost function ExitOf(bs: seq<Balance>, wallets: seq<nat>, n: nat): seq<Instruction>
    requires n <= |bs| == |wallets|
  {
    if n == 0 then []
    else if bs[n - 1].available == 0 then ExitOf(bs, wallets, n - 1)
    else ExitOf(bs, wallets, n - 1) + [Withdraw(bs[n - 1].owner, bs[n - 1].mint, wallets[n - 1], bs[n - 1].available)]
  }

  ghost predicate Wallets(s: State, wallets: seq<nat>) {
    && |wallets| == |s.balances|
    && forall i :: 0 <= i < |wallets| ==> && wallets[i] < |s.wallets|
                                          && s.wallets[wallets[i]].owner == s.balances[i].owner
                                          && s.wallets[wallets[i]].mint == s.balances[i].mint
  }

  ghost predicate Emptied(bs: seq<Balance>, bs': seq<Balance>, n: nat) {
    && |bs'| == |bs|
    && forall i :: 0 <= i < |bs| ==> bs'[i] == if i < n then bs[i].(available := 0) else bs[i]
  }

  lemma {:induction false} ExitStep(s: State, mid: State, wallets: seq<nat>, i: nat)
    requires Sound(mid) && Wallets(mid, wallets) && i < |mid.balances| && mid.balances[i].available > 0
    requires Emptied(s.balances, mid.balances, i)
    ensures var ix := Withdraw(mid.balances[i].owner, mid.balances[i].mint, wallets[i], mid.balances[i].available);
            && Refusal(mid, ix).None?
            && Emptied(s.balances, After(mid, ix).balances, i + 1) && Wallets(After(mid, ix), wallets)
  {
    WithdrawIff(mid, i, wallets[i], mid.balances[i].available);
    PlaceIs(mid.balances, i);
    hide Sound, PlaceOf;
  }

  /** A run on the bank: all available funds of all users can be withdrawn in one transaction. */
  lemma {:induction false} EveryoneCanExit(s: State, wallets: seq<nat>, n: nat)
    requires Sound(s) && |wallets| == |s.balances| && Wallets(s, wallets) && n <= |s.balances|
    ensures var end := Tx(s, ExitOf(s.balances, wallets, n));
            end.Some? && Emptied(s.balances, end.value.balances, n) && Wallets(end.value, wallets)
  {
    hide Sound, Refusal, After, Wallets, Emptied;
    if n == 0 {
      NoneEmptied(s.balances);
    } else {
      EveryoneCanExit(s, wallets, n - 1);
      var before := ExitOf(s.balances, wallets, n - 1);
      var mid := Tx(s, before).value;
      SameAt(s.balances, mid.balances, n - 1);
      if mid.balances[n - 1].available > 0 {
        ExitStep(s, mid, wallets, n - 1);
        TxAppend(s, before, Withdraw(mid.balances[n - 1].owner, mid.balances[n - 1].mint, wallets[n - 1], mid.balances[n - 1].available));
      }
    }
  }

  lemma {:induction false} NoneEmptied(bs: seq<Balance>)
    ensures Emptied(bs, bs, 0)
  {
  }

  lemma {:induction false} SameAt(bs: seq<Balance>, bs': seq<Balance>, i: nat)
    requires i < |bs| && Emptied(bs, bs', i)
    ensures |bs'| == |bs| && bs'[i] == bs[i]
    ensures bs[i].available == 0 ==> Emptied(bs, bs', i + 1)
  {
  }

  lemma {:induction false} TxAppend(s: State, ixs: seq<Instruction>, ix: Instruction)
    requires Sound(s) && Tx(s, ixs).Some? && Refusal(Tx(s, ixs).value, ix).None?
    ensures Tx(s, ixs + [ix]) == Some(After(Tx(s, ixs).value, ix))
  {
    assert (ixs + [ix])[..|ixs|] == ixs;
    hide Refusal, After, Sound;
  }

  /** Unlocking what was just locked restores the exchange. */
  lemma {:induction false} LockThenUnlock(s: State, i: nat, amount: nat)
    requires Sound(s) && Refusal(s, Lock(i, amount)).None?
    ensures Tx(s, [Lock(i, amount), Unlock(i, amount)]) == Some(s)
  {
    var ixs := [Lock(i, amount), Unlock(i, amount)];
    var mid := After(s, Lock(i, amount));
    assert ixs[..1] == [Lock(i, amount)] && [Lock(i, amount)][..0] == [];
    SoundIsKept(s, Lock(i, amount));
    assert mid.balances[i := s.balances[i]] == s.balances;
    assert Tx(s, ixs[..1]) == Some(mid);
    assert After(mid, Unlock(i, amount)).balances == s.balances;
    hide Sound;
  }

  lemma {:induction false} WalletBounds(mint: string, ws: seq<Wallet>, w: nat)
    requires w < |ws| && ws[w].mint == mint
    ensures ws[w].amount <= InWallets(mint, ws)
  {
    if w > 0 {
      WalletBounds(mint, ws[1..], w - 1);
    }
  }

  // ---- the program, with the checked 64-bit arithmetic it really does

  function CheckedAdd(x: nat, y: nat): Option<nat> { if x + y <= U64_MAX then Some(x + y) else None }

  function CheckedSub(x: nat, y: nat): Option<nat> { if y <= x then Some(x - y) else None }

  class Program {
    var paused: bool
    var assets: map<string, Asset>
    var balances: seq<Balance>
    var wallets: seq<Wallet>

    ghost function View(): State
      reads this
    {
      State(paused, assets, balances, wallets)
    }

    constructor (assets: map<string, Asset>, wallets: seq<Wallet>)
      ensures View() == State(false, assets, [], wallets)
    {
      this.paused, this.assets, this.balances, this.wallets := false, assets, [], wallets;
    }

    method FindBalance(owner: string, mint: string) returns (i: nat)
      ensures i == PlaceOf(balances, owner, mint)
    {
      i := 0;
      while i < |balances| && !(balances[i].owner == owner && balances[i].mint == mint)
        invariant i <= |balances| && forall j :: 0 <= j < i ==> balances[j].owner != owner || balances[j].mint != mint
      {
        i := i + 1;
      }
      assert i == PlaceOf(balances, owner, mint);
    }

    /** The token program: fails for lack of tokens or of room in the destination. */
    method TransferToVault(w: nat, amount: nat) returns (error: Option<Error>)
      requires Sound(View()) && w < |wallets| && wallets[w].mint in assets
      modifies this`assets, this`wallets
      ensures error == if old(wallets)[w].amount < amount then Some(TokenInsufficientFunds) else None
      ensures error.Some? ==> View() == old(View())
      ensures error.None? ==> View() == Move(old(View()), w, amount)
    {
      var mint := wallets[w].mint;
      if wallets[w].amount < amount {
        return Some(TokenInsufficientFunds);
      }
      WalletBounds(mint, wallets, w);
      assert InWallets(mint, wallets) + Vault(View(), mint) <= U64_MAX;
      if assets[mint].vault + amount > U64_MAX {
        return Some(TokenOverflow);
      }
      assets := assets[mint := assets[mint].(vault := assets[mint].vault + amount)];
      wallets := wallets[w := wallets[w].(amount := wallets[w].amount - amount)];
      return None;
    }

    method TransferFromVault(w: nat, amount: nat) returns (error: Option<Error>)
      requires Sound(View()) && w < |wallets| && wallets[w].mint in assets && amount <= assets[wallets[w].mint].vault
      modifies this`assets, this`wallets
      ensures error == None && View() == Move(old(View()), w, 0 - amount)
    {
      var mint := wallets[w].mint;
      WalletBounds(mint, wallets, w);
      assert InWallets(mint, wallets) + Vault(View(), mint) <= U64_MAX;
      if assets[mint].vault < amount {
        return Some(TokenInsufficientFunds);
      }
      if wallets[w].amount + amount > U64_MAX {
        return Some(TokenOverflow);
      }
      assets := assets[mint := assets[mint].(vault := assets[mint].vault - amount)];
      wallets := wallets[w := wallets[w].(amount := wallets[w].amount + amount)];
      return None;
    }

    method WalletCheck(user: string, mint: string, w: nat) returns (error: Option<Error>)
      requires w < |wallets|
      ensures error == WalletRefusal(View(), user, mint, w)
    {
      if wallets[w].mint != mint {
        return Some(MintMismatch);
      }
      return if wallets[w].owner != user then Some(WrongOwner) else None;
    }

    method Deposit(user: string, mint: string, w: nat, amount: nat) returns (error: Option<Error>)
      requires Sound(View())
      modifies this
      ensures error == Refusal(old(View()), Instruction.Deposit(user, mint, w, amount))
      ensures View() == Next(old(View()), Instruction.Deposit(user, mint, w, amount)) && Sound(View())
    {
      ghost var ix := Instruction.Deposit(user, mint, w, amount);
      NextIsSound(View(), ix);
      hide Sound;
      if mint !in assets || w >= |wallets| {
        return Some(NoAccount);
      }
      if !assets[mint].enabled {
        return Some(AssetDisabled);
      }
      error := WalletCheck(user, mint, w);
      if error.Some? {
        return;
      }
      if amount == 0 {
        return Some(InvalidAmount);
      }
      if paused {
        return Some(ExchangePaused);
      }
      error := TransferToVault(w, amount);
      if error.Some? {
        return;
      }
      var i := FindBalance(user, mint);
      var b := if i < |balances| then balances[i] else Balance(user, mint, 0, 0);
      RoomAfterDeposit(old(View()), ix);
      var available := CheckedAdd(b.available, amount);
      if available.None? {
        return Some(MathOverflow);
      }
      b := b.(available := available.value);
      balances := if i < |balances| then balances[i := b] else balances + [b];
    }

    static lemma {:induction false} RoomAfterDeposit(s: State, ix: Instruction)
      requires Sound(s) && ix.Deposit? && Refusal(s, ix).None?
      ensures var i := PlaceOf(s.balances, ix.user, ix.mint);
              (if i < |s.balances| then s.balances[i].available else 0) + ix.amount <= U64_MAX
    {
      var i := PlaceOf(s.balances, ix.user, ix.mint);
      WalletBounds(ix.mint, s.wallets, ix.wallet);
      assert InWallets(ix.mint, s.wallets) + Vault(s, ix.mint) <= U64_MAX;
      if i < |s.balances| {
        BalancesFit(s, i);
      }
    }

    method Withdraw(user: string, mint: string, w: nat, amount: nat) returns (error: Option<Error>)
      requires Sound(View())
      modifies this
      ensures error == Refusal(old(View()), Instruction.Withdraw(user, mint, w, amount))
      ensures View() == Next(old(View()), Instruction.Withdraw(user, mint, w, amount)) && Sound(View())
    {
      ghost var ix := Instruction.Withdraw(user, mint, w, amount);
      NextIsSound(View(), ix);
      hide Sound;
      var i := FindBalance(user, mint);
      if mint !in assets || w >= |wallets| || i >= |balances| {
        return Some(NoAccount);
      }
      error := WalletCheck(user, mint, w);
      if error.Some? {
        return;
      }
      if amount == 0 {
        return Some(InvalidAmount);
      }
      var b := balances[i];
      if b.available < amount {
        return Some(InsufficientAvailable);
      }
      var available := CheckedSub(b.available, amount);
      if available.None? {
        return Some(MathOverflow);
      }
      b := b.(available := available.value);
      BalancesFit(View(), i);
      error := TransferFromVault(w, amount);
      if error.Some? {
        return;
      }
      balances := balances[i := b];
    }

    method Lock(i: nat, amount: nat) returns (error: Option<Error>)
      requires Sound(View())
      modifies this
      ensures error == Refusal(old(View()), Instruction.Lock(i, amount))
      ensures View() == Next(old(View()), Instruction.Lock(i, amount)) && Sound(View())
      ensures error.None? ==>
                && i < |old(balances)|
                && var b := old(balances)[i];
                   balances == old(balances)[i := b.(available := b.available - amount, locked := b.locked + amount)]
    {
      NextIsSound(View(), Instruction.Lock(i, amount));
      hide Sound;
      if i >= |balances| {
        return Some(NoAccount);
      }
      if amount == 0 {
        return Some(InvalidAmount);
      }
      var b := balances[i];
      if b.available < amount {
        return Some(InsufficientAvailable);
      }
      BalancesFit(View(), i);
      var available := CheckedSub(b.available, amount);
      var locked := CheckedAdd(b.locked, amount);
      if available.None? || locked.None? {
        return Some(MathOverflow);
      }
      balances := balances[i := b.(available := available.value, locked := locked.value)];
      return None;
    }

    method Unlock(i: nat, amount: nat) returns (error: Option<Error>)
      requires Sound(View())
      modifies this
      ensures error == Refusal(old(View()), Instruction.Unlock(i, amount))
      ensures View() == Next(old(View()), Instruction.Unlock(i, amount)) && Sound(View())
      ensures error.None? ==>
                && i < |old(balances)| && amount <= old(balances)[i].locked
                && var b := old(balances)[i];
                   balances == old(balances)[i := b.(available := b.available + amount, locked := b.locked - amount)]
    {
      NextIsSound(View(), Instruction.Unlock(i, amount));
      hide Sound;
      if i >= |balances| {
        return Some(NoAccount);
      }
      if amount == 0 {
        return Some(InvalidAmount);
      }
      var b := balances[i];
      if b.locked < amount {
        return Some(InsufficientLocked);
      }
      BalancesFit(View(), i);
      var locked := CheckedSub(b.locked, amount);
      var available := CheckedAdd(b.available, amount);
      if available.None? || locked.None? {
        return Some(MathOverflow);
      }
      balances := balances[i := b.(available := available.value, locked := locked.value)];
      return None;
    }

    method SettleTransfer(i: nat, j: nat, amount: nat, fromLocked: bool) returns (error: Option<Error>)
      requires Sound(View())
      modifies this
      ensures error == Refusal(old(View()), Instruction.SettleTransfer(i, j, amount, fromLocked))
      ensures View() == Next(old(View()), Instruction.SettleTransfer(i, j, amount, fromLocked)) && Sound(View())
      ensures error.None? ==>
                && i < |balances| == |old(balances)| && j < |balances| && i != j
                && balances[j] == old(balances)[j].(available := old(balances)[j].available + amount)
                && balances[i].available == old(balances)[i].available - (if fromLocked then 0 else amount)
                && balances[i].locked == old(balances)[i].locked - (if fromLocked then amount else 0)
                && forall k :: 0 <= k < |balances| && k != i && k != j ==> balances[k] == old(balances)[k]
    {
      ghost var ix := Instruction.SettleTransfer(i, j, amount, fromLocked);
      NextIsSound(View(), ix);
      hide Sound;
      if i >= |balances| || j >= |balances| {
        return Some(NoAccount);
      }
      if i == j {
        return Some(SameAccount);
      }
      if balances[i].mint != balances[j].mint {
        return Some(MintMismatch);
      }
      if amount == 0 {
        return Some(InvalidAmount);
      }
      var from, to := balances[i], balances[j];
      if fromLocked {
        if from.locked < amount {
          return Some(InsufficientLocked);
        }
        from := from.(locked := from.locked - amount);
      } else {
        if from.available < amount {
          return Some(InsufficientAvailable);
        }
        from := from.(available := from.available - amount);
      }
      RoomAfterSettle(View(), ix);
      var available := CheckedAdd(to.available, amount);
      if available.None? {
        return Some(MathOverflow);
      }
      balances := balances[i := from][j := to.(available := available.value)];
      return None;
    }

    static lemma {:induction false} RoomAfterSettle(s: State, ix: Instruction)
      requires Sound(s) && ix.SettleTransfer? && Refusal(s, ix).None?
      ensures s.balances[ix.to].available + ix.amount <= U64_MAX
    {
      SoundIsKept(s, ix);
      BalancesFit(After(s, ix), ix.to);
    }

    method Donate(w: nat, amount: nat) returns (error: Option<Error>)
      requires Sound(View())
      modifies this
      ensures error == Refusal(old(View()), Instruction.Donate(w, amount))
      ensures View() == Next(old(View()), Instruction.Donate(w, amount)) && Sound(View())
    {
      NextIsSound(View(), Instruction.Donate(w, amount));
      hide Sound;
      if w >= |wallets| || wallets[w].mint !in assets {
        return Some(NoAccount);
      }
      error := TransferToVault(w, amount);
    }

    method Execute(ix: Instruction) returns (error: Option<Error>)
      requires Sound(View())
      modifies this
      ensures error == Refusal(old(View()), ix) && View() == Next(old(View()), ix) && Sound(View())
    {
      match ix
      case Deposit(user, mint, w, amount) => error := Deposit(user, mint, w, amount);
      case Withdraw(user, mint, w, amount) => error := Withdraw(user, mint, w, amount);
      case Lock(i, amount) => error := Lock(i, amount);
      case Unlock(i, amount) => error := Unlock(i, amount);
      case SettleTransfer(i, j, amount, fromLocked) => error := SettleTransfer(i, j, amount, fromLocked);
      case SetPaused(p) =>
        NextIsSound(View(), ix);
        paused, error := p, None;
      case SetEnabled(mint, e) =>
        NextIsSound(View(), ix);
        if mint !in assets {
          return Some(NoAccount);
        }
        assets, error := assets[mint := assets[mint].(enabled := e)], None;
      case Donate(w, amount) => error := Donate(w, amount);
      hide Sound, Refusal, After;
    }

    /** The runtime keeps the effects of a transaction only if every instruction succeeds. */
    method Transact(ixs: seq<Instruction>) returns (ok: bool)
      requires Sound(View())
      modifies this
      ensures ok == Tx(old(View()), ixs).Some?
      ensures View() == (if ok then Tx(old(View()), ixs).value else old(View())) && Sound(View())
    {
      hide Sound, Refusal, After;
      var before := (paused, assets, balances, wallets);
      for k := 0 to |ixs|
        invariant Sound(View()) && Tx(old(View()), ixs[..k]) == Some(View())
      {
        var error := Execute(ixs[k]);
        assert ixs[..k + 1][..k] == ixs[..k];
        if error.Some? {
          TxFails(old(View()), ixs, k + 1);
          paused, assets, balances, wallets := before.0, before.1, before.2, before.3;
          return false;
        }
      }
      assert ixs[..|ixs|] == ixs;
      return true;
    }

    static lemma {:induction false} TxFails(s: State, ixs: seq<Instruction>, n: nat)
      requires Sound(s) && n <= |ixs| && Tx(s, ixs[..n]).None?
      ensures Tx(s, ixs).None?
      decreases |ixs|
    {
      if n < |ixs| {
        assert ixs[..|ixs| - 1][..n] == ixs[..n];
        TxFails(s, ixs[..|ixs| - 1], n);
      } else {
        assert ixs[..n] == ixs;
      }
    }
  }
}
