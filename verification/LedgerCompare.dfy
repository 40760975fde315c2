/** The financial half of the disaster drill: the invariants one reading of the ledger must
    meet, and the comparison of what was restored with what was there. */
module LedgerCompare {

  // ---- Machine arithmetic ----------------------------------------------------------------

  type Int64 = x: int | -0x8000_0000_0000_0000 <= x < 0x8000_0000_0000_0000

  /** The 64-bit two's complement value of an integer: sums and products wrap around. */
  function Wrap(n: int): (r: Int64) {
    (n + 0x8000_0000_0000_0000) % 0x1_0000_0000_0000_0000 - 0x8000_0000_0000_0000
  }

  lemma WrapStep(a: int, b: int)
    ensures Wrap(Wrap(a) + b) == Wrap(a + b)
  {
    var m, h := 0x1_0000_0000_0000_0000, 0x8000_0000_0000_0000;
    var q := (a + h) / m;
    assert Wrap(a) == a - m * q;
    var x := a + b + h;
    assert (x - m * q) % m == x % m by {
      var k := x / m;
      assert x - m * q == m * (k - q) + x % m;
    }
  }

  // ---- Readings --------------------------------------------------------------------------

  datatype Wallet = Wallet(account: string, storedFree: Int64, storedPurchased: Int64,
                           derivedFree: Int64, derivedPurchased: Int64, rows: Int64, operations: Int64)

  datatype Ledger = Ledger(accounts: Int64, wallets: seq<Wallet>, operations: Int64, transactions: Int64,
                           ledgerDigest: string, balancesDigest: string,
                           freeINK: Int64, purchasedINK: Int64, jobs: Int64)

  datatype Rule =
    | NegativeBalance | DerivedBalance | LedgerMissing | OrphanOperation | DuplicateBucket
    | AggregateTotal | LedgerSmallerThanOperations | LedgerLargerThanOperations
    | WalletAdded | WalletMismatch | WalletLost
    | LedgerDigestDiffers | BalancesDigestDiffers | TotalMismatch | AccountsMismatch | LedgerSize | JobsMismatch

  datatype Violation = Violation(rule: Rule, subject: string)

  // ---- One reading -----------------------------------------------------------------------

  /** A refusal, when its condition holds. */
  function When(holds: bool, rule: Rule, subject: string): seq<Violation> {
    if holds then [Violation(rule, subject)] else []
  }

  predicate Breaks(w: Wallet, rule: Rule) {
    match rule
    case NegativeBalance => w.storedFree < 0 || w.storedPurchased < 0
    case DerivedBalance => w.storedFree != w.derivedFree || w.storedPurchased != w.derivedPurchased
    case LedgerMissing => w.rows == 0 && (w.storedFree != 0 || w.storedPurchased != 0)
    case OrphanOperation => w.rows < w.operations
    case DuplicateBucket => w.operations > 0 && w.rows > Wrap(2 * w.operations)
    case _ => false
  }

  /** The rules a wallet breaks, in the order they are judged. */
  function OfWallet(w: Wallet): seq<Violation> {
    When(Breaks(w, NegativeBalance), NegativeBalance, w.account) +
    When(Breaks(w, DerivedBalance), DerivedBalance, w.account) +
    When(Breaks(w, LedgerMissing), LedgerMissing, w.account) +
    When(Breaks(w, OrphanOperation), OrphanOperation, w.account) +
    When(Breaks(w, DuplicateBucket), DuplicateBucket, w.account)
  }

  function WalletViolations(wallets: seq<Wallet>): seq<Violation> {
    if wallets == [] then [] else
      WalletViolations(wallets[..|wallets| - 1]) + OfWallet(wallets[|wallets| - 1])
  }

  /** What the ledger derives for every wallet, added up without a width. */
  function DerivedFree(wallets: seq<Wallet>): int {
    if wallets == [] then 0 else DerivedFree(wallets[..|wallets| - 1]) + wallets[|wallets| - 1].derivedFree
  }

  function DerivedPurchased(wallets: seq<Wallet>): int {
    if wallets == [] then 0 else DerivedPurchased(wallets[..|wallets| - 1]) + wallets[|wallets| - 1].derivedPurchased
  }

  predicate TotalsHold(l: Ledger) {
    l.freeINK == Wrap(DerivedFree(l.wallets)) && l.purchasedINK == Wrap(DerivedPurchased(l.wallets))
  }

  function TotalViolations(l: Ledger): seq<Violation> {
    When(!TotalsHold(l), AggregateTotal, "wallet_transactions") +
    When(l.transactions < l.operations, LedgerSmallerThanOperations, "wallet_transactions") +
    When(l.transactions > Wrap(2 * l.operations), LedgerLargerThanOperations, "wallet_transactions")
  }

  method Violations(l: Ledger) returns (violations: seq<Violation>)
    ensures violations == WalletViolations(l.wallets) + TotalViolations(l)
  {
    hide OfWallet, When;
    violations := [];
    var derivedFree, derivedPurchased: Int64 := 0, 0;
    for i := 0 to |l.wallets|
      invariant derivedFree == Wrap(DerivedFree(l.wallets[..i]))
      invariant derivedPurchased == Wrap(DerivedPurchased(l.wallets[..i]))
      invariant violations == WalletViolations(l.wallets[..i])
    {
      var wallet := l.wallets[i];
      assert l.wallets[..i + 1][..i] == l.wallets[..i];
      WrapStep(DerivedFree(l.wallets[..i]), wallet.derivedFree);
      WrapStep(DerivedPurchased(l.wallets[..i]), wallet.derivedPurchased);
      derivedFree := Wrap(derivedFree + wallet.derivedFree);
      derivedPurchased := Wrap(derivedPurchased + wallet.derivedPurchased);
      var fired := JudgeWallet(wallet);
      violations := violations + fired;
    }
    assert l.wallets[..|l.wallets|] == l.wallets;
    violations := violations
      + When(derivedFree != l.freeINK || derivedPurchased != l.purchasedINK, AggregateTotal, "wallet_transactions");
    violations := violations + When(l.transactions < l.operations, LedgerSmallerThanOperations, "wallet_transactions");
    violations := violations
      + When(l.transactions > Wrap(2 * l.operations), LedgerLargerThanOperations, "wallet_transactions");
  }

  /** The body of the loop over wallets. */
  method JudgeWallet(wallet: Wallet) returns (fired: seq<Violation>)
    ensures fired == OfWallet(wallet)
  {
    hide When;
    fired := When(wallet.storedFree < 0 || wallet.storedPurchased < 0, NegativeBalance, wallet.account);
    fired := fired + When(wallet.storedFree != wallet.derivedFree || wallet.storedPurchased != wallet.derivedPurchased,
                          DerivedBalance, wallet.account);
    var holdsInk := wallet.storedFree != 0 || wallet.storedPurchased != 0;
    fired := fired + When(holdsInk && wallet.rows == 0, LedgerMissing, wallet.account);
    fired := fired + When(wallet.rows < wallet.operations, OrphanOperation, wallet.account);
    fired := fired + When(wallet.operations > 0 && wallet.rows > Wrap(2 * wallet.operations),
                          DuplicateBucket, wallet.account);
  }

  // ---- What a clean reading means --------------------------------------------------------

  /** The money of a reading is in order: no wallet is below zero, every projection is what the
      ledger derives, the wallets add up to the totals, and the ledger has one or two rows an
      operation. */
  ghost predicate MoneyHolds(l: Ledger) {
    (forall i :: 0 <= i < |l.wallets| ==> WalletHolds(l.wallets[i])) &&
    TotalsHold(l) && l.operations <= l.transactions <= Wrap(2 * l.operations)
  }

  predicate WalletHolds(w: Wallet) {
    w.storedFree == w.derivedFree >= 0 && w.storedPurchased == w.derivedPurchased >= 0
  }

  /** Every wallet's money is explained by the rows and operations of its own account. */
  predicate RowsHold(w: Wallet) {
    (w.rows == 0 ==> w.storedFree == 0 && w.storedPurchased == 0) && w.operations <= w.rows &&
    (w.operations > 0 ==> w.rows <= Wrap(2 * w.operations))
  }

  lemma WalletClean(w: Wallet)
    ensures OfWallet(w) == [] <==> WalletHolds(w) && RowsHold(w)
  {
    hide Wrap;
  }

  lemma {:induction false} WalletsClean(wallets: seq<Wallet>)
    ensures WalletViolations(wallets) == [] <==>
            forall i :: 0 <= i < |wallets| ==> WalletHolds(wallets[i]) && RowsHold(wallets[i])
  {
    if wallets != [] {
      var init, last := wallets[..|wallets| - 1], wallets[|wallets| - 1];
      WalletsClean(init);
      WalletClean(last);
      hide OfWallet, WalletHolds, RowsHold;
      assert forall i :: 0 <= i < |init| ==> init[i] == wallets[i];
    }
  }

  /** A reading is clean exactly when its money and its rows hold. */
  lemma CleanExactly(l: Ledger)
    ensures WalletViolations(l.wallets) + TotalViolations(l) == [] <==>
            MoneyHolds(l) && forall i :: 0 <= i < |l.wallets| ==> RowsHold(l.wallets[i])
  {
    WalletsClean(l.wallets);
    hide WalletHolds, RowsHold, WalletViolations, TotalsHold, Wrap;
    assert TotalViolations(l) == [] <==> TotalsHold(l) && l.operations <= l.transactions <= Wrap(2 * l.operations);
  }

  predicate Fits(n: int) { -0x8000_0000_0000_0000 <= n < 0x8000_0000_0000_0000 }

  /** The totals of a clean reading are the true sums of its wallets exactly when those sums
      have 64 bits: the running sums wrap around unseen. */
  lemma TotalsAreTrueSums(l: Ledger)
    requires MoneyHolds(l)
    ensures l.freeINK == DerivedFree(l.wallets) <==> Fits(DerivedFree(l.wallets))
    ensures l.purchasedINK == DerivedPurchased(l.wallets) <==> Fits(DerivedPurchased(l.wallets))
  {
    hide DerivedFree, DerivedPurchased, WalletHolds;
    assert Fits(DerivedFree(l.wallets)) ==> Wrap(DerivedFree(l.wallets)) == DerivedFree(l.wallets);
    assert Fits(DerivedPurchased(l.wallets)) ==> Wrap(DerivedPurchased(l.wallets)) == DerivedPurchased(l.wallets);
  }

  // ---- Two readings ----------------------------------------------------------------------

  predicate SameBalances(a: Wallet, b: Wallet) {
    a.storedFree == b.storedFree && a.storedPurchased == b.storedPurchased &&
    a.derivedFree == b.derivedFree && a.derivedPurchased == b.derivedPurchased
  }

  /** Wallets by account; a later one replaces an earlier one. */
  function ByAccount(wallets: seq<Wallet>): (m: map<string, Wallet>)
    ensures forall a :: a in m ==> m[a] in wallets && m[a].account == a
    ensures forall i :: 0 <= i < |wallets| ==> wallets[i].account in m
  {
    if wallets == [] then map[] else
      ByAccount(wallets[..|wallets| - 1])[wallets[|wallets| - 1].account := wallets[|wallets| - 1]]
  }

  /** What the restored wallets show: one that was not there, or one that changed. */
  function AddedOrChanged(before: map<string, Wallet>, restored: seq<Wallet>): seq<Violation> {
    if restored == [] then [] else
      var w := restored[|restored| - 1];
      AddedOrChanged(before, restored[..|restored| - 1]) +
      (if w.account !in before then [Violation(WalletAdded, w.account)]
       else if !SameBalances(before[w.account], w) then [Violation(WalletMismatch, w.account)] else [])
  }

  function Lost(baseline: seq<Wallet>, restored: map<string, Wallet>): seq<Violation> {
    if baseline == [] then [] else
      var w := baseline[|baseline| - 1];
      Lost(baseline[..|baseline| - 1], restored) +
      (if w.account !in restored then [Violation(WalletLost, w.account)] else [])
  }

  function FigureViolations(a: Ledger, b: Ledger): seq<Violation> {
    When(a.ledgerDigest != b.ledgerDigest, LedgerDigestDiffers, "wallet_transactions") +
    When(a.balancesDigest != b.balancesDigest, BalancesDigestDiffers, "wallet_accounts") +
    When(a.freeINK != b.freeINK || a.purchasedINK != b.purchasedINK, TotalMismatch, "wallet_transactions") +
    When(a.accounts != b.accounts, AccountsMismatch, "accounts") +
    When(a.operations != b.operations || a.transactions != b.transactions, LedgerSize, "wallet_transactions") +
    When(a.jobs != b.jobs, JobsMismatch, "jobs")
  }

  function Differences(baseline: Ledger, restored: Ledger): seq<Violation> {
    AddedOrChanged(ByAccount(baseline.wallets), restored.wallets) +
    Lost(baseline.wallets, ByAccount(restored.wallets)) + FigureViolations(baseline, restored)
  }

  method Compare(baseline: Ledger, restored: Ledger) returns (violations: seq<Violation>)
    ensures violations == Differences(baseline, restored)
  {
    hide AddedOrChanged, Lost, ByAccount, FigureViolations;
    var before := IndexWallets(baseline.wallets);
    violations := CompareRestored(before, restored.wallets);
    var lost := CompareLost(baseline.wallets, restored.wallets);
    violations := violations + lost;
    var figures := CompareFigures(baseline, restored);
    violations := violations + figures;
  }

  /** The loop that fills the map of wallets by account. */
  method IndexWallets(wallets: seq<Wallet>) returns (before: map<string, Wallet>)
    ensures before == ByAccount(wallets)
  {
    before := map[];
    for i := 0 to |wallets|
      invariant before == ByAccount(wallets[..i])
    {
      assert wallets[..i + 1][..i] == wallets[..i];
      before := before[wallets[i].account := wallets[i]];
    }
    assert wallets[..|wallets|] == wallets;
  }

  /** The two loops that find what did not come back. */
  method CompareLost(baseline: seq<Wallet>, restored: seq<Wallet>) returns (lost: seq<Violation>)
    ensures lost == Lost(baseline, ByAccount(restored))
  {
    var seen: set<string> := {};
    for i := 0 to |restored|
      invariant seen == ByAccount(restored[..i]).Keys
    {
      assert restored[..i + 1][..i] == restored[..i];
      seen := seen + {restored[i].account};
    }
    assert restored[..|restored|] == restored;
    hide ByAccount;
    lost := [];
    for i := 0 to |baseline|
      invariant lost == Lost(baseline[..i], ByAccount(restored))
    {
      assert baseline[..i + 1][..i] == baseline[..i];
      if baseline[i].account !in seen {
        lost := lost + [Violation(WalletLost, baseline[i].account)];
      }
    }
    assert baseline[..|baseline|] == baseline;
  }

  /** The loop over the restored wallets. */
  method CompareRestored(before: map<string, Wallet>, restored: seq<Wallet>) returns (violations: seq<Violation>)
    ensures violations == AddedOrChanged(before, restored)
  {
    violations := [];
    for i := 0 to |restored|
      invariant violations == AddedOrChanged(before, restored[..i])
    {
      var wallet := restored[i];
      assert restored[..i + 1][..i] == restored[..i];
      if wallet.account !in before {
        violations := violations + [Violation(WalletAdded, wallet.account)];
        continue;
      }
      var was := before[wallet.account];
      if was.storedFree != wallet.storedFree || was.storedPurchased != wallet.storedPurchased ||
         was.derivedFree != wallet.derivedFree || was.derivedPurchased != wallet.derivedPurchased {
        violations := violations + [Violation(WalletMismatch, wallet.account)];
      }
    }
    assert restored[..|restored|] == restored;
  }

  /** The comparison of the figures. */
  method CompareFigures(baseline: Ledger, restored: Ledger) returns (violations: seq<Violation>)
    ensures violations == FigureViolations(baseline, restored)
  {
    hide When;
    violations := When(baseline.ledgerDigest != restored.ledgerDigest, LedgerDigestDiffers, "wallet_transactions");
    violations := violations
      + When(baseline.balancesDigest != restored.balancesDigest, BalancesDigestDiffers, "wallet_accounts");
    violations := violations
      + When(baseline.freeINK != restored.freeINK || baseline.purchasedINK != restored.purchasedINK,
             TotalMismatch, "wallet_transactions");
    violations := violations + When(baseline.accounts != restored.accounts, AccountsMismatch, "accounts");
    violations := violations
      + When(baseline.operations != restored.operations || baseline.transactions != restored.transactions,
             LedgerSize, "wallet_transactions");
    violations := violations + When(baseline.jobs != restored.jobs, JobsMismatch, "jobs");
  }

  // ---- What a silent comparison means ----------------------------------------------------

  ghost predicate UniqueAccounts(wallets: seq<Wallet>) {
    forall i, j :: 0 <= i < j < |wallets| ==> wallets[i].account != wallets[j].account
  }

  ghost predicate Holds(wallets: seq<Wallet>, w: Wallet) {
    exists i :: 0 <= i < |wallets| && wallets[i].account == w.account && SameBalances(wallets[i], w)
  }

  /** Each list holds every wallet of the other, with the same four balances. */
  ghost predicate SameWallets(a: seq<Wallet>, b: seq<Wallet>) {
    (forall i :: 0 <= i < |a| ==> Holds(b, a[i])) && forall i :: 0 <= i < |b| ==> Holds(a, b[i])
  }

  predicate SameFigures(a: Ledger, b: Ledger) {
    a.(wallets := []) == b.(wallets := [])
  }

  lemma {:induction false} NothingAdded(before: map<string, Wallet>, restored: seq<Wallet>)
    ensures AddedOrChanged(before, restored) == [] <==>
            forall i :: 0 <= i < |restored| ==>
              restored[i].account in before && SameBalances(before[restored[i].account], restored[i])
  {
    hide SameBalances;
    if restored != [] {
      var init := restored[..|restored| - 1];
      NothingAdded(before, init);
      assert forall i :: 0 <= i < |init| ==> init[i] == restored[i];
    }
  }

  lemma {:induction false} NothingLost(baseline: seq<Wallet>, restored: map<string, Wallet>)
    ensures Lost(baseline, restored) == [] <==> forall i :: 0 <= i < |baseline| ==> baseline[i].account in restored
  {
    if baseline != [] {
      var init := baseline[..|baseline| - 1];
      NothingLost(init, restored);
      assert forall i :: 0 <= i < |init| ==> init[i] == baseline[i];
    }
  }

  /** Among wallets of distinct accounts, an account is looked up to its own wallet. */
  lemma LookedUp(wallets: seq<Wallet>, i: nat)
    requires UniqueAccounts(wallets) && i < |wallets|
    ensures ByAccount(wallets)[wallets[i].account] == wallets[i]
  {
    var w := ByAccount(wallets)[wallets[i].account];
    var j :| 0 <= j < |wallets| && wallets[j] == w;
    assert j == i;
  }

  /** Every wallet of `a` has the balances of the last one of its account. */
  ghost predicate RepeatsAgree(a: seq<Wallet>) {
    forall i :: 0 <= i < |a| ==> SameBalances(ByAccount(a)[a[i].account], a[i])
  }

  lemma UniqueAgree(a: seq<Wallet>)
    requires UniqueAccounts(a)
    ensures RepeatsAgree(a)
  {
    hide ByAccount;
    forall i | 0 <= i < |a| ensures SameBalances(ByAccount(a)[a[i].account], a[i]) { LookedUp(a, i); }
  }

  lemma AgreeingSilenceFindsWallets(a: seq<Wallet>, b: seq<Wallet>)
    requires AddedOrChanged(ByAccount(a), b) == [] && Lost(a, ByAccount(b)) == [] && RepeatsAgree(a)
    ensures SameWallets(a, b)
  {
    NothingAdded(ByAccount(a), b);
    NothingLost(a, ByAccount(b));
    hide AddedOrChanged, Lost, ByAccount;
    forall i | 0 <= i < |b| ensures Holds(a, b[i]) {
      var w := ByAccount(a)[b[i].account];
      assert w in a;
    }
    forall i | 0 <= i < |a| ensures Holds(b, a[i]) {
      var w := ByAccount(b)[a[i].account];
      var j :| 0 <= j < |b| && b[j] == w;
      assert SameBalances(a[i], b[j]);
    }
  }

  lemma SameWalletsAreSilent(a: seq<Wallet>, b: seq<Wallet>)
    requires SameWallets(a, b) && UniqueAccounts(a)
    ensures AddedOrChanged(ByAccount(a), b) == [] && Lost(a, ByAccount(b)) == []
  {
    NothingAdded(ByAccount(a), b);
    NothingLost(a, ByAccount(b));
    hide AddedOrChanged, Lost, ByAccount;
    forall i | 0 <= i < |b|
      ensures b[i].account in ByAccount(a) && SameBalances(ByAccount(a)[b[i].account], b[i])
    {
      assert Holds(a, b[i]);
      var j :| 0 <= j < |a| && a[j].account == b[i].account && SameBalances(a[j], b[i]);
      LookedUp(a, j);
    }
    forall i | 0 <= i < |a| ensures a[i].account in ByAccount(b) { assert Holds(b, a[i]); }
  }

  /** The comparison is silent exactly when both readings hold the same wallets with the same
      balances and the same figures. The restored side may list them in any order. */
  lemma SilentExactly(baseline: Ledger, restored: Ledger)
    requires UniqueAccounts(baseline.wallets)
    ensures Differences(baseline, restored) == [] <==>
            SameWallets(baseline.wallets, restored.wallets) && SameFigures(baseline, restored)
  {
    var a, b := baseline.wallets, restored.wallets;
    FiguresSilent(baseline, restored);
    hide FigureViolations, SameFigures, AddedOrChanged, Lost, SameWallets, ByAccount;
    assert Differences(baseline, restored) == [] <==>
           AddedOrChanged(ByAccount(a), b) == [] && Lost(a, ByAccount(b)) == [] &&
           FigureViolations(baseline, restored) == [];
    if SameWallets(a, b) { SameWalletsAreSilent(a, b); }
    if AddedOrChanged(ByAccount(a), b) == [] && Lost(a, ByAccount(b)) == [] {
      UniqueAgree(a);
      AgreeingSilenceFindsWallets(a, b);
    }
  }

  lemma FiguresSilent(a: Ledger, b: Ledger)
    ensures FigureViolations(a, b) == [] <==> SameFigures(a, b)
  {
  }

  /** Every wallet replaced by the last one of its account. */
  function LastOfEach(a: seq<Wallet>): (r: seq<Wallet>)
    ensures |r| == |a| && forall i :: 0 <= i < |r| ==> r[i] == ByAccount(a)[a[i].account]
  {
    seq(|a|, i requires 0 <= i < |a| => ByAccount(a)[a[i].account])
  }

  lemma LastOfEachIsSilent(baseline: Ledger)
    ensures Differences(baseline, baseline.(wallets := LastOfEach(baseline.wallets))) == []
  {
    var a, b := baseline.wallets, LastOfEach(baseline.wallets);
    FiguresSilent(baseline, baseline.(wallets := b));
    NothingAdded(ByAccount(a), b);
    NothingLost(a, ByAccount(b));
    hide AddedOrChanged, Lost, ByAccount, FigureViolations, LastOfEach;
    forall i | 0 <= i < |a| ensures a[i].account in ByAccount(b) { assert b[i].account == a[i].account; }
  }

  /** The comparison goes by the last wallet of an account: what becomes of the wallets of the
      baseline is noticed, whatever comes back, exactly when no earlier wallet of an account
      differs from the last. */
  lemma RepeatedAccountIsMissed(baseline: Ledger)
    ensures RepeatsAgree(baseline.wallets) <==>
            forall restored :: Differences(baseline, restored) == [] ==> SameWallets(baseline.wallets, restored.wallets)
  {
    var a := baseline.wallets;
    hide AddedOrChanged, Lost, FigureViolations, SameWallets, ByAccount, LastOfEach;
    if RepeatsAgree(a) {
      forall restored | Differences(baseline, restored) == [] ensures SameWallets(a, restored.wallets) {
        AgreeingSilenceFindsWallets(a, restored.wallets);
      }
    } else {
      var i :| 0 <= i < |a| && !SameBalances(ByAccount(a)[a[i].account], a[i]);
      LastOfEachIsSilent(baseline);
      NotHeld(a, i);
    }
  }

  lemma NotHeld(a: seq<Wallet>, i: nat)
    requires i < |a| && !SameBalances(ByAccount(a)[a[i].account], a[i])
    ensures !SameWallets(a, LastOfEach(a))
  {
    hide ByAccount, LastOfEach, SameBalances;
    assert !Holds(LastOfEach(a), a[i]);
  }

  /** On the restored side a wallet can come back twice without a word, and the wallets then add
      up to more than they did. */
  lemma DuplicateIsUnseen(baseline: Ledger, i: nat)
    requires UniqueAccounts(baseline.wallets) && i < |baseline.wallets|
    ensures var restored := baseline.(wallets := baseline.wallets + [baseline.wallets[i]]);
            && Differences(baseline, restored) == []
            && DerivedFree(restored.wallets) == DerivedFree(baseline.wallets) + baseline.wallets[i].derivedFree
            && DerivedPurchased(restored.wallets) ==
                 DerivedPurchased(baseline.wallets) + baseline.wallets[i].derivedPurchased
  {
    var a := baseline.wallets;
    hide Differences, DerivedFree, DerivedPurchased, UniqueAccounts, SameWallets;
    RepeatedIsSame(a, i);
    SilentExactly(baseline, baseline.(wallets := a + [a[i]]));
    SumConcat(a, [a[i]]);
    SumOne(a[i]);
  }

  lemma RepeatedIsSame(a: seq<Wallet>, i: nat)
    requires i < |a|
    ensures SameWallets(a, a + [a[i]])
  {
    var b := a + [a[i]];
    forall k | 0 <= k < |a| ensures Holds(b, a[k]) { assert b[k] == a[k]; }
    forall k | 0 <= k < |b| ensures Holds(a, b[k]) { assert b[k] == a[if k < |a| then k else i]; }
  }

  // ---- Conservation ----------------------------------------------------------------------

  function Without(wallets: seq<Wallet>, i: nat): seq<Wallet>
    requires i < |wallets|
  {
    wallets[..i] + wallets[i + 1..]
  }

  lemma {:induction false} SumConcat(a: seq<Wallet>, b: seq<Wallet>)
    ensures DerivedFree(a + b) == DerivedFree(a) + DerivedFree(b)
    ensures DerivedPurchased(a + b) == DerivedPurchased(a) + DerivedPurchased(b)
  {
    if b == [] {
      assert a + b == a;
    } else {
      assert (a + b)[..|a + b| - 1] == a + b[..|b| - 1];
      SumConcat(a, b[..|b| - 1]);
    }
  }

  lemma SumOne(w: Wallet)
    ensures DerivedFree([w]) == w.derivedFree && DerivedPurchased([w]) == w.derivedPurchased
  {
    assert [w][..0] == [];
  }

  lemma SumWithout(wallets: seq<Wallet>, i: nat)
    requires i < |wallets|
    ensures DerivedFree(wallets) == DerivedFree(Without(wallets, i)) + wallets[i].derivedFree
    ensures DerivedPurchased(wallets) == DerivedPurchased(Without(wallets, i)) + wallets[i].derivedPurchased
  {
    hide DerivedFree, DerivedPurchased;
    var before, w, after := wallets[..i], wallets[i], wallets[i + 1..];
    SumConcat(before, after);
    SumConcat(before, [w]);
    SumConcat(before + [w], after);
    SumOne(w);
    assert wallets == before + [w] + after;
  }

  lemma WithoutHolds(a: seq<Wallet>, w: Wallet, i: nat)
    requires i < |a| && Holds(a, w) && w.account != a[i].account
    ensures Holds(Without(a, i), w)
  {
    hide SameBalances;
    var j :| 0 <= j < |a| && a[j].account == w.account && SameBalances(a[j], w);
    assert Without(a, i)[if j < i then j else j - 1] == a[j];
  }

  /** Dropping one account from both sides keeps the rest the same. */
  lemma RestHolds(a: seq<Wallet>, i: nat, b: seq<Wallet>, j: nat)
    requires i < |a| && j < |b| && a[i].account == b[j].account && UniqueAccounts(a)
    requires forall k :: 0 <= k < |a| ==> Holds(b, a[k])
    ensures UniqueAccounts(Without(a, i))
    ensures forall k :: 0 <= k < |Without(a, i)| ==> Holds(Without(b, j), Without(a, i)[k])
  {
    hide Holds;
    forall k | 0 <= k < |Without(a, i)| ensures Holds(Without(b, j), Without(a, i)[k]) {
      var m := if k < i then k else k + 1;
      assert Without(a, i)[k] == a[m];
      WithoutHolds(b, a[m], j);
    }
  }

  lemma BalancesGiveSums(a: Wallet, b: Wallet)
    requires SameBalances(a, b)
    ensures a.derivedFree == b.derivedFree && a.derivedPurchased == b.derivedPurchased
  {
  }

  /** The same wallets add up to the same sums, in whatever order they are listed. */
  lemma {:induction false} SameSums(a: seq<Wallet>, b: seq<Wallet>)
    requires UniqueAccounts(a) && UniqueAccounts(b) && SameWallets(a, b)
    ensures DerivedFree(a) == DerivedFree(b) && DerivedPurchased(a) == DerivedPurchased(b)
    decreases |a|
  {
    hide SameBalances, DerivedFree, DerivedPurchased, Without;
    assert b != [] ==> Holds(a, b[0]);
    if a != [] {
      assert Holds(b, a[0]);
      var j :| 0 <= j < |b| && b[j].account == a[0].account && SameBalances(b[j], a[0]);
      RestHolds(a, 0, b, j);
      RestHolds(b, j, a, 0);
      SumWithout(a, 0);
      SumWithout(b, j);
      BalancesGiveSums(b[j], a[0]);
      WithoutIsShorter(a, 0);
      SameSums(Without(a, 0), Without(b, j));
    }
  }

  lemma WithoutIsShorter(a: seq<Wallet>, i: nat)
    requires i < |a|
    ensures |Without(a, i)| == |a| - 1
  {
  }

  lemma WalletsStayInOrder(a: seq<Wallet>, b: seq<Wallet>)
    requires SameWallets(a, b) && forall i :: 0 <= i < |a| ==> WalletHolds(a[i])
    ensures forall i :: 0 <= i < |b| ==> WalletHolds(b[i])
  {
    forall i | 0 <= i < |b| ensures WalletHolds(b[i]) { assert Holds(a, b[i]); }
  }

  /** Conservation: after a silent comparison the money of the restored ledger is in order
      exactly when the money of the baseline was, so a clean baseline gives back a ledger with
      no negative wallet, no drifted projection and wallets that add up to the totals. */
  lemma SilenceConservesMoney(baseline: Ledger, restored: Ledger)
    requires UniqueAccounts(baseline.wallets) && UniqueAccounts(restored.wallets)
    requires Differences(baseline, restored) == []
    ensures MoneyHolds(baseline) <==> MoneyHolds(restored)
    ensures DerivedFree(baseline.wallets) == DerivedFree(restored.wallets)
    ensures DerivedPurchased(baseline.wallets) == DerivedPurchased(restored.wallets)
  {
    SilentExactly(baseline, restored);
    hide *;
    SameSums(baseline.wallets, restored.wallets);
    if MoneyHolds(baseline) { MoneyMoves(baseline, restored); }
    if MoneyHolds(restored) {
      SameBothWays(baseline, restored);
      MoneyMoves(restored, baseline);
    }
  }

  // ---- Wallets that come back more than once ---------------------------------------------

  ghost predicate HasAccount(wallets: seq<Wallet>, account: string) {
    exists i :: 0 <= i < |wallets| && wallets[i].account == account
  }

  /** The first wallet of every account, in order. */
  ghost function Firsts(wallets: seq<Wallet>): seq<Wallet> {
    if wallets == [] then [] else
      var init, last := wallets[..|wallets| - 1], wallets[|wallets| - 1];
      Firsts(init) + if HasAccount(init, last.account) then [] else [last]
  }

  /** The wallets of an account that came before. */
  ghost function Extras(wallets: seq<Wallet>): seq<Wallet> {
    if wallets == [] then [] else
      var init, last := wallets[..|wallets| - 1], wallets[|wallets| - 1];
      Extras(init) + if HasAccount(init, last.account) then [last] else []
  }

  lemma {:induction false} SumFirstsAndExtras(wallets: seq<Wallet>)
    ensures DerivedFree(wallets) == DerivedFree(Firsts(wallets)) + DerivedFree(Extras(wallets))
    ensures DerivedPurchased(wallets) == DerivedPurchased(Firsts(wallets)) + DerivedPurchased(Extras(wallets))
  {
    hide HasAccount;
    if wallets != [] {
      var init, last := wallets[..|wallets| - 1], wallets[|wallets| - 1];
      assert wallets == init + [last] && Firsts(init) + [] == Firsts(init) && Extras(init) + [] == Extras(init);
      assert HasAccount(init, last.account) ==>
             Firsts(wallets) == Firsts(init) && Extras(wallets) == Extras(init) + [last];
      assert !HasAccount(init, last.account) ==>
             Firsts(wallets) == Firsts(init) + [last] && Extras(wallets) == Extras(init);
      hide *;
      SumFirstsAndExtras(init);
      SumConcat(init, [last]);
      SumConcat(Firsts(init), [last]);
      SumConcat(Extras(init), [last]);
    }
  }

  lemma FirstsStep(wallets: seq<Wallet>)
    requires wallets != []
    ensures var init, last := wallets[..|wallets| - 1], wallets[|wallets| - 1];
            Firsts(wallets) == Firsts(init) + if HasAccount(init, last.account) then [] else [last]
  {
    hide HasAccount;
  }

  lemma {:induction false} FirstsAreUnique(wallets: seq<Wallet>)
    ensures UniqueAccounts(Firsts(wallets))
    ensures forall i :: 0 <= i < |Firsts(wallets)| ==> Firsts(wallets)[i] in wallets
    ensures forall i :: 0 <= i < |wallets| ==> HasAccount(Firsts(wallets), wallets[i].account)
  {
    if wallets != [] {
      var init, last := wallets[..|wallets| - 1], wallets[|wallets| - 1];
      FirstsAreUnique(init);
      var firsts, all := Firsts(init), Firsts(wallets);
      FirstsStep(wallets);
      hide Firsts;
      assert wallets == init + [last];
      forall i | 0 <= i < |firsts| ensures HasAccount(init, firsts[i].account) { assert firsts[i] in init; }
      forall i | 0 <= i < |wallets| ensures HasAccount(all, wallets[i].account) {
        if i == |init| && !HasAccount(init, last.account) {
          assert all[|firsts|] == last;
        } else {
          HeldByFirsts(init, firsts, wallets[i].account);
          MoreHold(firsts, all, wallets[i].account);
        }
      }
    }
  }

  lemma HeldByFirsts(init: seq<Wallet>, firsts: seq<Wallet>, account: string)
    requires HasAccount(init, account)
    requires forall i :: 0 <= i < |init| ==> HasAccount(firsts, init[i].account)
    ensures HasAccount(firsts, account)
  {
    var j :| 0 <= j < |init| && init[j].account == account;
    assert HasAccount(firsts, init[j].account);
  }

  lemma MoreHold(a: seq<Wallet>, b: seq<Wallet>, account: string)
    requires a <= b && HasAccount(a, account)
    ensures HasAccount(b, account)
  {
    var k :| 0 <= k < |a| && a[k].account == account;
    assert b[k].account == account;
  }

  /** Of the wallets that were found in silence the first of every account are the baseline's. */
  lemma FirstsAreTheSame(a: seq<Wallet>, b: seq<Wallet>)
    requires UniqueAccounts(a) && SameWallets(a, b)
    ensures SameWallets(a, Firsts(b))
  {
    FirstsAreUnique(b);
    var firsts := Firsts(b);
    hide Firsts, SameBalances;
    forall i | 0 <= i < |firsts| ensures Holds(a, firsts[i]) {
      assert firsts[i] in b;
      var j :| 0 <= j < |b| && b[j] == firsts[i];
      assert Holds(a, b[j]);
    }
    forall i | 0 <= i < |a| ensures Holds(firsts, a[i]) {
      assert Holds(b, a[i]);
      var j :| 0 <= j < |b| && b[j].account == a[i].account && SameBalances(b[j], a[i]);
      assert HasAccount(firsts, b[j].account);
      var k :| 0 <= k < |firsts| && firsts[k].account == a[i].account;
      assert Holds(a, firsts[k]);
      var m :| 0 <= m < |a| && a[m].account == firsts[k].account && SameBalances(a[m], firsts[k]);
      assert m == i;
      SameBalancesBack(a[i], firsts[k]);
    }
  }

  lemma SameBalancesBack(a: Wallet, b: Wallet)
    requires SameBalances(a, b)
    ensures SameBalances(b, a)
  {
  }

  /** After any silent comparison the restored sums are the baseline's and what the extra copies
      add up to; so they are equal exactly when the extra copies add up to nothing. */
  lemma SilentSumsExactly(baseline: Ledger, restored: Ledger)
    requires UniqueAccounts(baseline.wallets) && Differences(baseline, restored) == []
    ensures var extras := Extras(restored.wallets);
            && DerivedFree(restored.wallets) == DerivedFree(baseline.wallets) + DerivedFree(extras)
            && DerivedPurchased(restored.wallets) == DerivedPurchased(baseline.wallets) + DerivedPurchased(extras)
    ensures UniqueAccounts(restored.wallets) ==> Extras(restored.wallets) == []
  {
    hide *;
    SilentExactly(baseline, restored);
    FirstsAreTheSame(baseline.wallets, restored.wallets);
    FirstsAreUnique(restored.wallets);
    SameSums(baseline.wallets, Firsts(restored.wallets));
    SumFirstsAndExtras(restored.wallets);
    NoExtras(restored.wallets);
  }

  lemma {:induction false} NoExtras(wallets: seq<Wallet>)
    ensures UniqueAccounts(wallets) <==> Extras(wallets) == []
  {
    if wallets != [] {
      var init, last := wallets[..|wallets| - 1], wallets[|wallets| - 1];
      NoExtras(init);
      assert forall i :: 0 <= i < |init| ==> init[i] == wallets[i];
      assert UniqueAccounts(wallets) <==> UniqueAccounts(init) && !HasAccount(init, last.account);
    }
  }

  /** The restored money is in order exactly when the baseline's was and what the extra copies
      add up to vanishes in 64 bits. */
  lemma SilentMoneyExactly(baseline: Ledger, restored: Ledger)
    requires UniqueAccounts(baseline.wallets) && Differences(baseline, restored) == [] && MoneyHolds(baseline)
    ensures var extras := Extras(restored.wallets);
            MoneyHolds(restored) <==> Wrap(DerivedFree(extras)) == 0 && Wrap(DerivedPurchased(extras)) == 0
  {
    hide *;
    SilentSumsExactly(baseline, restored);
    SilentExactly(baseline, restored);
    MoneyParts(baseline);
    MoneyParts(restored);
    SameFiguresAre(baseline, restored);
    WalletsStayInOrder(baseline.wallets, restored.wallets);
    WrapsAlike(DerivedFree(baseline.wallets), DerivedFree(Extras(restored.wallets)));
    WrapsAlike(DerivedPurchased(baseline.wallets), DerivedPurchased(Extras(restored.wallets)));
  }

  lemma MoneyParts(l: Ledger)
    ensures MoneyHolds(l) <==>
            && (forall i :: 0 <= i < |l.wallets| ==> WalletHolds(l.wallets[i]))
            && l.freeINK == Wrap(DerivedFree(l.wallets)) && l.purchasedINK == Wrap(DerivedPurchased(l.wallets))
            && l.operations <= l.transactions <= Wrap(2 * l.operations)
  {
    hide WalletHolds, Wrap, DerivedFree, DerivedPurchased;
  }

  lemma SameFiguresAre(a: Ledger, b: Ledger)
    requires SameFigures(a, b)
    ensures a.freeINK == b.freeINK && a.purchasedINK == b.purchasedINK
    ensures a.operations == b.operations && a.transactions == b.transactions
  {
  }

  lemma WrapsAlike(a: int, b: int)
    ensures Wrap(a + b) == Wrap(a) <==> Wrap(b) == 0
  {
    var m, h := 0x1_0000_0000_0000_0000, 0x8000_0000_0000_0000;
    var q, r, t := (a + h) / m, (b + h) / m, (a + b + h) / m;
    assert Wrap(a) == a - m * q && Wrap(b) == b - m * r && Wrap(a + b) == a + b - m * t;
    if Wrap(b) == 0 { WrapPeriod(a, r); }
  }

  lemma WrapPeriod(a: int, k: int)
    ensures Wrap(a + 0x1_0000_0000_0000_0000 * k) == Wrap(a)
  {
    var m, h := 0x1_0000_0000_0000_0000, 0x8000_0000_0000_0000;
    var q := (a + h) / m;
    assert (a + h) == m * q + (a + h) % m;
    assert (a + m * k + h) == m * (q + k) + (a + h) % m;
  }

  /** What a silent comparison leaves to be judged: the restored reading is clean exactly when
      the baseline's money was in order and the rows of every restored wallet explain it. */
  lemma RestoredIsCleanExactly(baseline: Ledger, restored: Ledger)
    requires UniqueAccounts(baseline.wallets) && UniqueAccounts(restored.wallets)
    requires Differences(baseline, restored) == []
    ensures WalletViolations(restored.wallets) + TotalViolations(restored) == [] <==>
            MoneyHolds(baseline) && forall i :: 0 <= i < |restored.wallets| ==> RowsHold(restored.wallets[i])
  {
    hide *;
    SilenceConservesMoney(baseline, restored);
    CleanExactly(restored);
  }

  lemma MoneyMoves(a: Ledger, b: Ledger)
    requires SameWallets(a.wallets, b.wallets) && SameFigures(a, b) && MoneyHolds(a)
    requires DerivedFree(a.wallets) == DerivedFree(b.wallets) &&
             DerivedPurchased(a.wallets) == DerivedPurchased(b.wallets)
    ensures MoneyHolds(b)
  {
    hide WalletHolds, Wrap, SameWallets, DerivedFree, DerivedPurchased;
    WalletsStayInOrder(a.wallets, b.wallets);
  }

  lemma SameBothWays(a: Ledger, b: Ledger)
    requires SameWallets(a.wallets, b.wallets) && SameFigures(a, b)
    ensures SameWallets(b.wallets, a.wallets) && SameFigures(b, a)
  {
    hide Holds;
  }

  lemma OneWallet(was: Wallet, now: Wallet)
    requires was.account == now.account && SameBalances(was, now)
    ensures SameWallets([was], [now]) && UniqueAccounts([was]) && UniqueAccounts([now])
  {
    assert [was][0] == was && [now][0] == now;
    assert Holds([now], was) && Holds([was], now);
  }

  /** Only the balances of a wallet are compared: its rows can change without a word. */
  lemma RowsGoUnseen(baseline: Ledger, was: Wallet, now: Wallet)
    requires baseline.wallets == [was] && MoneyHolds(baseline) && RowsHold(was)
    requires was.account == now.account && SameBalances(was, now) && !RowsHold(now)
    ensures var restored := baseline.(wallets := [now]);
            UniqueAccounts(baseline.wallets) && UniqueAccounts(restored.wallets) &&
            Differences(baseline, restored) == [] &&
            WalletViolations(baseline.wallets) + TotalViolations(baseline) == [] &&
            WalletViolations(restored.wallets) + TotalViolations(restored) != []
  {
    hide MoneyHolds, RowsHold, SameBalances, SameWallets, UniqueAccounts, Differences, WalletViolations,
         TotalViolations;
    var restored := baseline.(wallets := [now]);
    OneWallet(was, now);
    SilentExactly(baseline, restored);
    CleanExactly(baseline);
    CleanExactly(restored);
    assert restored.wallets[0] == now;
  }

  /** What silence does not conserve: the rows behind one wallet are not compared, so the
      restored reading can break a rule of its own. */
  lemma RowsAreNotCompared()
    ensures exists baseline: Ledger, restored: Ledger ::
              UniqueAccounts(baseline.wallets) && UniqueAccounts(restored.wallets) &&
              Differences(baseline, restored) == [] &&
              WalletViolations(baseline.wallets) + TotalViolations(baseline) == [] &&
              WalletViolations(restored.wallets) + TotalViolations(restored) != []
  {
    var was := Wallet("a", 5, 0, 5, 0, 1, 1);
    var now := was.(rows := 0, operations := 0);
    var baseline := Ledger(1, [was], 1, 1, "", "", 5, 0, 0);
    CleanExample(baseline, was, now);
    hide *;
    RowsGoUnseen(baseline, was, now);
  }

  lemma CleanExample(l: Ledger, was: Wallet, now: Wallet)
    requires was == Wallet("a", 5, 0, 5, 0, 1, 1) && now == was.(rows := 0, operations := 0)
    requires l == Ledger(1, [was], 1, 1, "", "", 5, 0, 0)
    ensures MoneyHolds(l) && SameBalances(was, now) && RowsHold(was) && !RowsHold(now)
  {
    SumOne(was);
    hide DerivedFree, DerivedPurchased;
  }

  // ---- Which refusals, rule by rule ------------------------------------------------------

  /** What is refused of one wallet. The double is the 64-bit one. */
  ghost predicate RefusedOf(w: Wallet, v: Violation) {
    && v.subject == w.account
    && (|| (v.rule.NegativeBalance? && (w.storedFree < 0 || w.storedPurchased < 0))
        || (v.rule.DerivedBalance? && (w.storedFree, w.storedPurchased) != (w.derivedFree, w.derivedPurchased))
        || (v.rule.LedgerMissing? && w.rows == 0 && (w.storedFree != 0 || w.storedPurchased != 0))
        || (v.rule.OrphanOperation? && w.rows < w.operations)
        || (v.rule.DuplicateBucket? && 0 < w.operations && Wrap(2 * w.operations) < w.rows))
  }

  lemma RefusedOfWallet(w: Wallet, v: Violation)
    ensures v in OfWallet(w) <==> RefusedOf(w, v)
  {
    hide Wrap;
  }

  lemma {:induction false} RefusedOfWallets(wallets: seq<Wallet>, v: Violation)
    ensures v in WalletViolations(wallets) <==> exists i :: 0 <= i < |wallets| && RefusedOf(wallets[i], v)
  {
    if wallets != [] {
      var init, last := wallets[..|wallets| - 1], wallets[|wallets| - 1];
      RefusedOfWallets(init, v);
      RefusedOfWallet(last, v);
      assert WalletViolations(wallets) == WalletViolations(init) + OfWallet(last);
      hide *;
      assert v in WalletViolations(wallets) <==> v in WalletViolations(init) || v in OfWallet(last);
      assert wallets == init + [last];
    }
  }

  /** Arithmetic of 64 bits: the one value in range that differs by a multiple of two to the 64th. */
  lemma WrapExactly(n: int, r: Int64)
    ensures Wrap(n) == r <==> exists k :: n == r + k * 0x1_0000_0000_0000_0000
  {
    var m, h := 0x1_0000_0000_0000_0000, 0x8000_0000_0000_0000;
    assert n == Wrap(n) + (n + h) / m * m;
    if k :| n == r + k * m {
      var q := (n + h) / m;
      assert Wrap(n) - r == (k - q) * m;
      assert -m < Wrap(n) - r < m;
      assert k == q;
    }
  }

  /** What is refused of a reading, and when. */
  lemma RefusedExactly(l: Ledger, v: Violation)
    ensures v in WalletViolations(l.wallets) + TotalViolations(l) <==>
            || (exists i :: 0 <= i < |l.wallets| && RefusedOf(l.wallets[i], v))
            || (&& v == Violation(AggregateTotal, "wallet_transactions")
                && (l.freeINK, l.purchasedINK) != (Wrap(DerivedFree(l.wallets)), Wrap(DerivedPurchased(l.wallets))))
            || (v == Violation(LedgerSmallerThanOperations, "wallet_transactions") && l.transactions < l.operations)
            || (&& v == Violation(LedgerLargerThanOperations, "wallet_transactions")
                && Wrap(2 * l.operations) < l.transactions)
  {
    RefusedOfWallets(l.wallets, v);
    hide Wrap, WalletViolations, RefusedOf, DerivedFree, DerivedPurchased;
  }

  /** The wallet an account has in the end. */
  ghost predicate LastOf(wallets: seq<Wallet>, w: Wallet) {
    exists i :: LastAt(wallets, i) && wallets[i] == w
  }

  ghost predicate LastAt(wallets: seq<Wallet>, i: int) {
    0 <= i < |wallets| && forall j :: i < j < |wallets| ==> wallets[j].account != wallets[i].account
  }

  lemma {:induction false} ByAccountExactly(wallets: seq<Wallet>, w: Wallet)
    ensures LastOf(wallets, w) <==> w.account in ByAccount(wallets) && ByAccount(wallets)[w.account] == w
  {
    if wallets != [] {
      var init, last := wallets[..|wallets| - 1], wallets[|wallets| - 1];
      ByAccountExactly(init, w);
      hide ByAccount;
      LastAtStep(wallets, w);
      ByAccountStep(wallets);
    }
  }

  lemma ByAccountStep(wallets: seq<Wallet>)
    requires wallets != []
    ensures var init, last := wallets[..|wallets| - 1], wallets[|wallets| - 1];
            ByAccount(wallets) == ByAccount(init)[last.account := last]
  {
  }

  lemma LastAtStep(wallets: seq<Wallet>, w: Wallet)
    requires wallets != []
    ensures var init, last := wallets[..|wallets| - 1], wallets[|wallets| - 1];
            LastOf(wallets, w) <==> if w.account == last.account then w == last else LastOf(init, w)
  {
    var init, last := wallets[..|wallets| - 1], wallets[|wallets| - 1];
    assert wallets == init + [last];
    assert LastAt(wallets, |init|);
    if i :| LastAt(init, i) && init[i] == w && w.account != last.account { assert LastAt(wallets, i); }
    if i :| LastAt(wallets, i) && wallets[i] == w && w.account != last.account { assert LastAt(init, i); }
  }

  /** What is refused of one restored wallet. */
  ghost predicate NotAsBefore(baseline: seq<Wallet>, w: Wallet, v: Violation) {
    && v.subject == w.account
    && (|| (v.rule.WalletAdded? && !HasAccount(baseline, w.account))
        || (v.rule.WalletMismatch? && exists was :: LastOf(baseline, was) && Changed(was, w)))
  }

  ghost predicate Changed(was: Wallet, w: Wallet) {
    && was.account == w.account
    && (was.storedFree, was.storedPurchased, was.derivedFree, was.derivedPurchased) !=
       (w.storedFree, w.storedPurchased, w.derivedFree, w.derivedPurchased)
  }

  lemma Accounts(wallets: seq<Wallet>, account: string)
    ensures account in ByAccount(wallets) <==> HasAccount(wallets, account)
  {
    hide ByAccount;
  }

  lemma OneNotAsBefore(baseline: seq<Wallet>, w: Wallet, v: Violation)
    ensures var before := ByAccount(baseline);
            NotAsBefore(baseline, w, v) <==>
            || (w.account !in before && v == Violation(WalletAdded, w.account))
            || (&& w.account in before && !SameBalances(before[w.account], w)
                && v == Violation(WalletMismatch, w.account))
  {
    Accounts(baseline, w.account);
    var before := ByAccount(baseline);
    if w.account in before { ByAccountExactly(baseline, before[w.account]); }
    if was :| LastOf(baseline, was) && Changed(was, w) { ByAccountExactly(baseline, was); }
    hide ByAccount, LastOf, HasAccount;
  }

  lemma {:induction false} RestoredNotAsBefore(baseline: seq<Wallet>, restored: seq<Wallet>, v: Violation)
    ensures v in AddedOrChanged(ByAccount(baseline), restored) <==>
            exists i :: 0 <= i < |restored| && NotAsBefore(baseline, restored[i], v)
  {
    hide ByAccount, NotAsBefore, SameBalances;
    if restored != [] {
      var init, last := restored[..|restored| - 1], restored[|restored| - 1];
      RestoredNotAsBefore(baseline, init, v);
      OneNotAsBefore(baseline, last, v);
      assert forall i :: 0 <= i < |init| ==> init[i] == restored[i];
    }
  }

  lemma {:induction false} LostExactly(baseline: seq<Wallet>, restored: seq<Wallet>, v: Violation)
    ensures v in Lost(baseline, ByAccount(restored)) <==>
            v.rule.WalletLost? && HasAccount(baseline, v.subject) && !HasAccount(restored, v.subject)
  {
    Accounts(restored, v.subject);
    hide ByAccount;
    if baseline != [] {
      var init, last := baseline[..|baseline| - 1], baseline[|baseline| - 1];
      LostExactly(init, restored, v);
      Accounts(restored, last.account);
      assert baseline == init + [last];
    }
  }

  /** What is refused of two readings, and when: a wallet that was not there, that changed, that is
      gone, and each of the figures that differ. */
  lemma DifferencesExactly(a: Ledger, b: Ledger, v: Violation)
    ensures v in Differences(a, b) <==>
            || (exists i :: 0 <= i < |b.wallets| && NotAsBefore(a.wallets, b.wallets[i], v))
            || (v.rule.WalletLost? && HasAccount(a.wallets, v.subject) && !HasAccount(b.wallets, v.subject))
            || (v == Violation(LedgerDigestDiffers, "wallet_transactions") && a.ledgerDigest != b.ledgerDigest)
            || (v == Violation(BalancesDigestDiffers, "wallet_accounts") && a.balancesDigest != b.balancesDigest)
            || (&& v == Violation(TotalMismatch, "wallet_transactions")
                && (a.freeINK, a.purchasedINK) != (b.freeINK, b.purchasedINK))
            || (v == Violation(AccountsMismatch, "accounts") && a.accounts != b.accounts)
            || (&& v == Violation(LedgerSize, "wallet_transactions")
                && (a.operations, a.transactions) != (b.operations, b.transactions))
            || (v == Violation(JobsMismatch, "jobs") && a.jobs != b.jobs)
  {
    RestoredNotAsBefore(a.wallets, b.wallets, v);
    LostExactly(a.wallets, b.wallets, v);
    hide AddedOrChanged, Lost, ByAccount, NotAsBefore, HasAccount;
  }
}
