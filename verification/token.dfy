/**
 * The payment asset that both contracts move value with. Only transfers are
 * modelled: every account has an integer balance, and a transfer moves an
 * amount from one account to another.
 */
module Token {

  /** A principal (client, freelancer, voter, admin). */
  type Address = nat

  /** The accounts that hold value: users and the contracts' own accounts. */
  datatype Account =
    | User(addr: Address)
    | EscrowCustody     // the escrow contract's own address
    | RegistryCustody   // the dispute contract's own address
    | Treasury          // where escrow fees go

  /** Balance of `a`; an account that never received anything holds 0. */
  function Bal(b: map<Account, int>, a: Account): int {
    if a in b then b[a] else 0
  }

  /** The balance table after moving `amt` from `from` to `to`. */
  function Moved(b: map<Account, int>, from: Account, to: Account, amt: int): (b': map<Account, int>)
    ensures from != to ==> Bal(b', from) == Bal(b, from) - amt && Bal(b', to) == Bal(b, to) + amt
    ensures from == to ==> Bal(b', from) == Bal(b, from)
    ensures forall a :: a != from && a != to ==> Bal(b', a) == Bal(b, a)
  {
    var b1 := b[from := Bal(b, from) - amt];
    b1[to := Bal(b1, to) + amt]
  }

  /** `Moved` when `amt` is positive, and no movement otherwise. */
  function MovedIfPositive(b: map<Account, int>, from: Account, to: Account, amt: int): (b': map<Account, int>)
    ensures amt <= 0 ==> b' == b
    ensures amt > 0 ==> b' == Moved(b, from, to, amt)
  {
    if amt > 0 then Moved(b, from, to, amt) else b
  }

  /** The asset contract: one balance table shared by all its callers. */
  class TokenLedger {
    var bal: map<Account, int>

    constructor (initial: map<Account, int>)
      ensures bal == initial
    {
      bal := initial;
    }

    method Transfer(from: Account, to: Account, amt: int)
      modifies this
      ensures bal == Moved(old(bal), from, to, amt)
    {
      bal := Moved(bal, from, to, amt);
    }
  }
}
