/** Mnemonic storage (src/features/wallet/storage.ts): where the encrypted
    recovery phrase is kept, and the ordered checks that guard writing it.
    The storage provider is an abstract key -> value store; the encryption,
    the decryption and the mnemonic word-list check are foreign and are
    passed in as a `VaultCrypto`. `getSigner()` becomes the `signer` argument. */
module WalletStorage {
  import opened Common
  import opened WalletSlice

  const MnemonicStorageKey := "wallet/mnemonic"
  const MnemonicFilename := "mnemonic.enc"

  /** `getWalletPath`: a file under Electron, a storage key on the web. */
  function WalletPath(isElectron: bool): (path: string)
    ensures isElectron ==> path == MnemonicFilename
    ensures !isElectron ==> path == MnemonicStorageKey
  {
    if isElectron then MnemonicFilename else MnemonicStorageKey
  }

  /** The signer `getSigner()` returns: its type and, for a local signer, the
      recovery phrase of its HD node (absent when the node has none). */
  datatype Signer = Signer(signerType: SignerType, mnemonicPhrase: Option<string>)

  datatype VaultCrypto = VaultCrypto(
    encrypt: (string, string) -> Result<string>,
    decrypt: (string, string) -> Result<string>,
    isValidMnemonic: string -> bool)

  /** Why `saveWallet` refuses, in the order the checks run. */
  datatype SaveRefusal = NoSigner | NotLocal | WouldOverwrite | NoMnemonic | InvalidMnemonic

  /** The checks of `saveWallet` before it encrypts: either the phrase to
      write or the first check that failed. */
  datatype SaveDecision = Write(mnemonic: string) | Refuse(reason: SaveRefusal)

  function SaveCheck(signer: Option<Signer>, walletPresent: bool, override: bool, isValidMnemonic: string -> bool): (d: SaveDecision)
    ensures d.Write? <==>
      && signer.Some?
      && signer.value.signerType == Local
      && (!walletPresent || override)
      && signer.value.mnemonicPhrase.Some?
      && signer.value.mnemonicPhrase.value != ""
      && isValidMnemonic(signer.value.mnemonicPhrase.value)
    ensures d.Write? ==> signer.value.mnemonicPhrase == Some(d.mnemonic)
    ensures signer.None? ==> d == Refuse(NoSigner)
    // the overwrite refusal comes before any look at the phrase
    ensures signer.Some? && signer.value.signerType == Local && walletPresent && !override ==> d == Refuse(WouldOverwrite)
  {
    if signer.None? then Refuse(NoSigner)
    else if signer.value.signerType != Local then Refuse(NotLocal)
    else if walletPresent && !override then Refuse(WouldOverwrite)
    else if signer.value.mnemonicPhrase.None? || signer.value.mnemonicPhrase.value == "" then Refuse(NoMnemonic)
    else if !isValidMnemonic(signer.value.mnemonicPhrase.value) then Refuse(InvalidMnemonic)
    else Write(signer.value.mnemonicPhrase.value)
  }

  /** What `loadWallet` returns for the store `items`: null when nothing
      (or an empty string) is stored and when decryption throws. */
  function LoadFrom(items: map<string, string>, path: string, pincode: string, decrypt: (string, string) -> Result<string>): (m: Option<string>)
    ensures m.Some? <==> path in items && items[path] != "" && decrypt(items[path], pincode).Success?
    ensures m.Some? ==> decrypt(items[path], pincode) == Success(m.value)
  {
    if path !in items || items[path] == "" then None
    else
      match decrypt(items[path], pincode)
      case Failure(_) => None
      case Success(mnemonic) => Some(mnemonic)
  }

  /** A saved phrase loads back with the same pincode, given an encryption
      that succeeds and round-trips for it. */
  lemma SaveThenLoad(items: map<string, string>, path: string, mnemonic: string, pincode: string, crypto: VaultCrypto)
    requires crypto.encrypt(mnemonic, pincode).Success? && crypto.encrypt(mnemonic, pincode).value != ""
    requires crypto.decrypt(crypto.encrypt(mnemonic, pincode).value, pincode) == Success(mnemonic)
    ensures LoadFrom(items[path := crypto.encrypt(mnemonic, pincode).value], path, pincode, crypto.decrypt) == Some(mnemonic)
  {
  }

  /** A missing wallet and a wrong pincode look the same to the caller. */
  lemma MissingAndUndecryptableAlike(items: map<string, string>, path: string, pincode: string, decrypt: (string, string) -> Result<string>)
    requires path in items && items[path] != "" && decrypt(items[path], pincode).Failure?
    ensures LoadFrom(items, path, pincode, decrypt) == LoadFrom(items - {path}, path, pincode, decrypt)
  {
  }

  /** The storage provider's contents, seen through the wallet path. */
  class WalletStore {
    const isElectron: bool
    var items: map<string, string>

    constructor (electron: bool, initial: map<string, string>)
      ensures isElectron == electron && items == initial
    {
      isElectron := electron;
      items := initial;
    }

    /** `isWalletInStorage`. */
    predicate IsWalletInStorage()
      reads this
      ensures IsWalletInStorage() <==> (if isElectron then MnemonicFilename else MnemonicStorageKey) in items
    {
      WalletPath(isElectron) in items
    }

    /** `saveWallet`: every refusal, a failed encryption and a `setItem`
        that throws (`setItemThrows`, decided by the storage provider) are
        rethrown as one message and write nothing; the write is the last
        step. */
    method SaveWallet(pincode: string, override: bool, signer: Option<Signer>, crypto: VaultCrypto, setItemThrows: bool)
      returns (r: Outcome)
      modifies this`items
      ensures r.Fail? ==> r.error == "Failure saving wallet" && items == old(items)
      ensures r.Pass? <==>
        var decision := SaveCheck(signer, old(IsWalletInStorage()), override, crypto.isValidMnemonic);
        decision.Write? && crypto.encrypt(decision.mnemonic, pincode).Success? && !setItemThrows
      ensures r.Pass? ==>
        items == old(items)[WalletPath(isElectron) := crypto.encrypt(signer.value.mnemonicPhrase.value, pincode).value]
      // a stored wallet is replaced only when `override` is set
      ensures old(IsWalletInStorage()) && !override ==> items == old(items)
      ensures r.Pass? ==> IsWalletInStorage()
    {
      var decision := SaveCheck(signer, IsWalletInStorage(), override, crypto.isValidMnemonic);
      match decision {
        case Refuse(_) =>
          r := Fail("Failure saving wallet");
        case Write(mnemonic) =>
          var encrypted := crypto.encrypt(mnemonic, pincode);
          if encrypted.Failure? || setItemThrows {
            r := Fail("Failure saving wallet");
          } else {
            items := items[WalletPath(isElectron) := encrypted.value];
            r := Pass;
          }
      }
    }

    /** `loadWallet`: reads only. */
    method LoadWallet(pincode: string, crypto: VaultCrypto) returns (m: Option<string>)
      ensures m == LoadFrom(items, WalletPath(isElectron), pincode, crypto.decrypt)
      ensures m.Some? ==> IsWalletInStorage()
    {
      var path := WalletPath(isElectron);
      if path !in items || items[path] == "" {
        return None;
      }
      var decrypted := crypto.decrypt(items[path], pincode);
      if decrypted.Failure? {
        return None;
      }
      m := Some(decrypted.value);
    }

    /** `removeWallet`: deletes the wallet entry, nothing else. */
    method RemoveWallet()
      modifies this`items
      ensures items == old(items) - {WalletPath(isElectron)}
      ensures !IsWalletInStorage()
    {
      items := items - {WalletPath(isElectron)};
    }
  }
}
