/** The wallet session slice (src/features/wallet/walletSlice.ts): the
    account address, the signer type, the balances cache and the unlock flag.
    A failed `assert` in a reducer throws out of `dispatch` before any field
    is written, so a refused action leaves the state as it was. */
module WalletSlice {
  import opened Common
  import opened JsString

  /** `SignerType`. */
  datatype SignerType = Local | Ledger

  /** `Balances`: wei amounts as decimal strings, and the fetch time. */
  datatype Balances = Balances(cUsd: string, celo: string, lastUpdated: Option<int>)

  const InitialBalances := Balances("0", "0", None)

  /** The fields `walletPersistConfig` whitelists for persistence. */
  datatype PersistedWallet = PersistedWallet(address: Option<string>, balances: Balances)

  /** The guard of `setAddress`: a truthy address of exactly 42 code units
      and a signer type that is Local or Ledger (an absent type is refused). */
  function SetAddressCheck(address: string, signerType: Option<SignerType>): (r: Outcome)
    ensures r.Pass? <==> |Utf16(address)| == 42 && signerType.Some?
    ensures |Utf16(address)| != 42 ==> r == Fail("Invalid address " + address)
    ensures |Utf16(address)| == 42 && signerType.None? ==> r == Fail("Invalid type " + address)
  {
    if address == "" || |Utf16(address)| != 42 then Fail("Invalid address " + address)
    else if signerType.None? then Fail("Invalid type " + address)
    else Pass
  }

  /** The guard of `updateBalances`: both amounts are non-empty strings and
      the timestamp is present and non-zero (all three truthy). */
  function UpdateBalancesCheck(b: Balances): (r: Outcome)
    ensures r.Pass? <==> b.cUsd != "" && b.celo != "" && b.lastUpdated.Some? && b.lastUpdated.value != 0
  {
    if b.cUsd != "" && b.celo != "" && b.lastUpdated.Some? && b.lastUpdated.value != 0 then Pass
    else Fail("Invalid balance")
  }

  class Wallet {
    var address: Option<string>
    var signerType: Option<SignerType>
    var balances: Balances
    var isUnlocked: bool

    function Persisted(): PersistedWallet
      reads this
    {
      PersistedWallet(address, balances)
    }

    /** `walletInitialState`. */
    constructor ()
      ensures address == None && signerType == None
      ensures balances == InitialBalances && !isUnlocked
    {
      address := None;
      signerType := None;
      balances := InitialBalances;
      isUnlocked := false;
    }

    /** Rehydration: address and balances come back from storage; the signer
        type and the unlock flag start from their initial values. */
    constructor Rehydrate(p: PersistedWallet)
      ensures Persisted() == p
      ensures signerType == None && !isUnlocked
    {
      address := p.address;
      signerType := None;
      balances := p.balances;
      isUnlocked := false;
    }

    /** `setAddress`. */
    method SetAddress(newAddress: string, newType: Option<SignerType>) returns (r: Outcome)
      modifies this
      ensures r == SetAddressCheck(newAddress, newType)
      ensures r.Fail? ==> unchanged(this)
      ensures r.Pass? ==> address == Some(newAddress) && signerType == newType
      ensures balances == old(balances) && isUnlocked == old(isUnlocked)
    {
      r := SetAddressCheck(newAddress, newType);
      if r.Pass? {
        address := Some(newAddress);
        signerType := newType;
      }
    }

    /** `updateBalances`: replaces the balances wholesale when the guard passes. */
    method UpdateBalances(newBalances: Balances) returns (r: Outcome)
      modifies this`balances
      ensures r == UpdateBalancesCheck(newBalances)
      ensures balances == if r.Pass? then newBalances else old(balances)
    {
      r := UpdateBalancesCheck(newBalances);
      if r.Pass? {
        balances := newBalances;
      }
    }

    /** `setWalletUnlocked`. */
    method SetWalletUnlocked(unlocked: bool)
      modifies this`isUnlocked
      ensures isUnlocked == unlocked
      ensures Persisted() == old(Persisted())
    {
      isUnlocked := unlocked;
    }

    /** `clearWallet`: resets address, balances and the unlock flag; the
        signer type is deliberately kept. */
    method ClearWallet()
      modifies this
      ensures address == None && balances == InitialBalances && !isUnlocked
      ensures signerType == old(signerType)
    {
      address := None;
      balances := InitialBalances;
      isUnlocked := false;
    }
  }
}
