/** The ledger of credits and debits, and what a served job adds to it. Amounts are ten-thousandths of a
  credit. */
module Ledgers {
  import opened Wrappers
  import opened Pricing

  const TREASURY := "oim-treasury"

  datatype Credit = Credit(user: string, amount: int, source: string)
  datatype Debit = Debit(user: string, amount: int, jobID: string)

  function CreditTotal(cs: seq<Credit>): int {
    if cs == [] then 0 else CreditTotal(cs[..|cs| - 1]) + cs[|cs| - 1].amount
  }

  function DebitTotal(ds: seq<Debit>): int {
    if ds == [] then 0 else DebitTotal(ds[..|ds| - 1]) + ds[|ds| - 1].amount
  }

  function Earned(cs: seq<Credit>, user: string): int {
    if cs == [] then 0 else
      Earned(cs[..|cs| - 1], user) + if cs[|cs| - 1].user == user then cs[|cs| - 1].amount else 0
  }

  function Spent(ds: seq<Debit>, user: string): int {
    if ds == [] then 0 else
      Spent(ds[..|ds| - 1], user) + if ds[|ds| - 1].user == user then ds[|ds| - 1].amount else 0
  }

  // ---------------------------------------------------------------- earnings

  /** A linked wallet wins over the account a node registered with, and both over its own ID. */
  function ResolveEarningsAccount(wallet: Option<string>, registered: Option<string>, node: string): string {
    if wallet.Some? then wallet.value else if registered.Some? then registered.value else node
  }

  /** A served job: by whom, on what terms, and what the registry and the account tables say of the
    serving node. */
  datatype Work = Work(jobID: string, node: string, lane: Lane, sensitivity: Sensitivity, tokens: int,
                       simulated: bool, wallet: Option<string>, registered: Option<string>)
  {
    function Reward(): int { ProviderReward(lane, sensitivity, tokens) }
    function Account(): string { ResolveEarningsAccount(wallet, registered, node) }
  }

  /** The entries of a job for which a consumer is charged `charge`: the provider's reward and the
    treasury's margin. */
  function Minted(w: Work, charge: int): seq<Credit> {
    if w.simulated then []
    else [Credit(w.Account(), w.Reward(), w.jobID)] +
         if charge - w.Reward() > 0 then [Credit(TREASURY, charge - w.Reward(), w.jobID + "-margin")] else []
  }

  /** Nothing is minted for a simulated node. For a real one reward and margin together are the charge,
    exactly when the charge is not below the reward. */
  lemma MintedTotal(w: Work, charge: int)
    ensures w.simulated ==> CreditTotal(Minted(w, charge)) == 0
    ensures !w.simulated ==> (CreditTotal(Minted(w, charge)) == charge <==> charge >= w.Reward())
    ensures forall e :: e in Minted(w, charge) ==> e.amount >= 0
  {
    ChargeWithinSpread(w.lane, w.sensitivity, w.tokens, 0.0);
    if !w.simulated {
      var first := [Credit(w.Account(), w.Reward(), w.jobID)];
      assert first[..0] == [];
      assert CreditTotal(first) == w.Reward();
      if charge - w.Reward() > 0 {
        assert Minted(w, charge)[..1] == first;
      } else {
        assert Minted(w, charge) == first;
      }
    }
  }

  /** Who is paid: the reward goes to the linked wallet, without one to the account the node registered
    with, and without either to the node's own ID; what the charge leaves above it goes to the treasury,
    and nobody else gets anything. */
  lemma WhoIsPaid(before: seq<Credit>, w: Work, charge: int, user: string)
    ensures w.simulated ==> Earned(before + Minted(w, charge), user) == Earned(before, user)
    ensures w.wallet.Some? ==> w.Account() == w.wallet.value
    ensures w.wallet.None? && w.registered.Some? ==> w.Account() == w.registered.value
    ensures w.wallet.None? && w.registered.None? ==> w.Account() == w.node
    ensures var reward := ProviderReward(w.lane, w.sensitivity, w.tokens);
      var margin := if charge > reward then charge - reward else 0;
      var part := (if user == w.Account() then reward else 0) + if user == "oim-treasury" then margin else 0;
      !w.simulated ==> Earned(before + Minted(w, charge), user) == Earned(before, user) + part
  {
    EarnedAppend(before, Minted(w, charge), user);
    hide ProviderReward;
    var first := Credit(w.Account(), w.Reward(), w.jobID);
    assert [first][..0] == [];
    assert Earned([first][..0], user) == 0;
    EarnedAppend([first], [Credit(TREASURY, charge - w.Reward(), w.jobID + "-margin")], user);
    EarnedOfOne(first, user);
    EarnedOfOne(Credit(TREASURY, charge - w.Reward(), w.jobID + "-margin"), user);
    assert [first] + [] == [first];
    assert Earned([], user) == 0;
  }

  lemma EarnedOfOne(x: Credit, user: string)
    ensures Earned([x], user) == if x.user == user then x.amount else 0
  {
    assert [x][..0] == [];
    assert Earned([x][..0], user) == 0;
  }

  lemma {:induction false} CreditTotalAppend(a: seq<Credit>, b: seq<Credit>)
    ensures CreditTotal(a + b) == CreditTotal(a) + CreditTotal(b)
  {
    if b == [] {
      assert a + b == a;
    } else {
      CreditTotalAppend(a, b[..|b| - 1]);
      assert (a + b)[..|a + b| - 1] == a + b[..|b| - 1];
    }
  }

  lemma {:induction false} EarnedAppend(a: seq<Credit>, b: seq<Credit>, user: string)
    ensures Earned(a + b, user) == Earned(a, user) + Earned(b, user)
  {
    if b == [] {
      assert a + b == a;
    } else {
      EarnedAppend(a, b[..|b| - 1], user);
      assert (a + b)[..|a + b| - 1] == a + b[..|b| - 1];
    }
  }

  lemma {:induction false} EarnedNonNegative(cs: seq<Credit>, user: string)
    requires forall e :: e in cs ==> e.amount >= 0
    ensures 0 <= Earned(cs, user)
  {
    if cs != [] {
      assert cs[|cs| - 1] in cs;
      EarnedNonNegative(cs[..|cs| - 1], user);
    }
  }

  // ---------------------------------------------------------------- the ledger

  class Ledger {
    var credits: seq<Credit>
    var debits: seq<Debit>

    constructor ()
      ensures credits == [] && debits == []
    {
      credits, debits := [], [];
    }

    method CreditAccount(user: string, amount: int, source: string)
      modifies this
      ensures credits == old(credits) + [Credit(user, amount, source)] && debits == old(debits)
    {
      credits := credits + [Credit(user, amount, source)];
    }

    /** `GetBalance`, as far as the credit gate uses it. */
    method Balance(user: string) returns (balance: int)
      ensures balance == Earned(credits, user) - Spent(debits, user)
    {
      var earned := 0;
      for i := 0 to |credits|
        invariant earned == Earned(credits[..i], user)
      {
        assert credits[..i + 1][..i] == credits[..i];
        if credits[i].user == user {
          earned := earned + credits[i].amount;
        }
      }
      assert credits[..|credits|] == credits;
      var spent := 0;
      for i := 0 to |debits|
        invariant spent == Spent(debits[..i], user)
      {
        assert debits[..i + 1][..i] == debits[..i];
        if debits[i].user == user {
          spent := spent + debits[i].amount;
        }
      }
      assert debits[..|debits|] == debits;
      balance := earned - spent;
    }

    /** Refuses what the balance does not cover, and what cannot be recorded. */
    method DebitAccount(user: string, amount: int, jobID: string, recorded: bool) returns (ok: bool)
      modifies this
      ensures ok <==> amount <= Earned(credits, user) - Spent(old(debits), user) && recorded
      ensures credits == old(credits)
      ensures debits == if ok then old(debits) + [Debit(user, amount, jobID)] else old(debits)
    {
      var balance := Balance(user);
      if amount > balance {
        return false;
      }
      if !recorded {
        return false;
      }
      debits := debits + [Debit(user, amount, jobID)];
      ok := true;
    }

    /** `creditNodeEarning`, for any lane and any charge. */
    method CreditNodeEarning(w: Work, charge: int)
      modifies this
      ensures credits == old(credits) + Minted(w, charge) && debits == old(debits)
      ensures w.simulated ==> credits == old(credits)
      ensures var reward := ProviderReward(w.lane, w.sensitivity, w.tokens);
        var account := if w.wallet.Some? then w.wallet.value else if w.registered.Some? then w.registered.value else w.node;
        var margin := if charge > reward then [Credit("oim-treasury", charge - reward, w.jobID + "-margin")] else [];
        !w.simulated ==> credits == old(credits) + [Credit(account, reward, w.jobID)] + margin
    {
      hide ProviderReward;
      if w.simulated {
        return;
      }
      var reward := ProviderReward(w.lane, w.sensitivity, w.tokens);
      var margin := charge - reward;
      if margin < 0 {
        margin := 0;
      }
      CreditAccount(w.Account(), reward, w.jobID);
      if margin > 0 {
        CreditAccount(TREASURY, margin, w.jobID + "-margin");
      }
    }
  }
}
