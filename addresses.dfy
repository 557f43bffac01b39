/** Address string helpers (src/utils/addresses.ts).
    The ethers checksum helpers `isAddress` and `getAddress` are not part of
    this model: they are given as the fields of an `AddressCodec`. */
module Addresses {
  import opened Common

  datatype AddressCodec = AddressCodec(isAddress: string -> bool, getAddress: string -> string)

  /** An address the helpers accept: non-empty (truthy) and well-formed. */
  predicate Acceptable(codec: AddressCodec, address: string)
  {
    address != "" && codec.isAddress(address)
  }

  /** `validateAddress`: throws on an empty or malformed address. */
  function ValidateAddress(codec: AddressCodec, address: string, context: string): (r: Outcome)
    ensures r.Pass? <==> address != "" && codec.isAddress(address)
    ensures r.Fail? ==> r.error == "Invalid addresses for " + context + ": " + address
  {
    if address == "" || !codec.isAddress(address) then
      Fail("Invalid addresses for " + context + ": " + address)
    else
      Pass
  }

  /** `normalizeAddress`: the checksummed form of an acceptable address. */
  function NormalizeAddress(codec: AddressCodec, address: string): (r: Result<string>)
    ensures r.Success? <==> Acceptable(codec, address)
    ensures r.Success? ==> r.value == codec.getAddress(address)
    ensures r.Failure? ==> r.error == "Invalid addresses for normalize: " + address
  {
    match ValidateAddress(codec, address, "normalize")
    case Fail(e) => Failure(e)
    case Pass => Success(codec.getAddress(address))
  }

  /** `shortenAddress`: the first eight characters of the normalised address
      (all of it when shorter), followed by "..." exactly when `elipsis`. */
  function ShortenAddress(codec: AddressCodec, address: string, elipsis: bool): (r: Result<string>)
    ensures r.Success? <==> Acceptable(codec, address)
    ensures r.Failure? ==> r.error == "Invalid addresses for shorten: " + address
    ensures r.Success? ==>
      var full := codec.getAddress(address);
      var k := Min(8, |full|);
      && |r.value| == k + (if elipsis then 3 else 0)
      && StartsWith(full, r.value[..k])
      && (elipsis <==> r.value[k..] == "...")
  {
    match ValidateAddress(codec, address, "shorten")
    case Fail(e) => Failure(e)
    case Pass =>
      match NormalizeAddress(codec, address)
      case Failure(e) => Failure(e)
      case Success(full) =>
        var head := full[..Min(8, |full|)];
        Success(head + (if elipsis then "..." else ""))
  }

  /** `areAddressesEqual`: validates both sides (first `a1`, then `a2`), then
      compares their normalised forms. */
  function AreAddressesEqual(codec: AddressCodec, a1: string, a2: string): (r: Result<bool>)
    ensures r.Success? <==> Acceptable(codec, a1) && Acceptable(codec, a2)
    ensures !Acceptable(codec, a1) ==> r == Failure("Invalid addresses for compare: " + a1)
    ensures r.Success? ==> (r.value <==> codec.getAddress(a1) == codec.getAddress(a2))
  {
    match ValidateAddress(codec, a1, "compare")
    case Fail(e) => Failure(e)
    case Pass =>
      match ValidateAddress(codec, a2, "compare")
      case Fail(e) => Failure(e)
      case Pass => Success(codec.getAddress(a1) == codec.getAddress(a2))
  }

  /** Comparison succeeds on the same inputs in either order and then gives
      the same answer; an acceptable address equals itself. */
  lemma AreAddressesEqualSymmetric(codec: AddressCodec, a1: string, a2: string)
    ensures AreAddressesEqual(codec, a1, a2).Success? <==> AreAddressesEqual(codec, a2, a1).Success?
    ensures AreAddressesEqual(codec, a1, a2).Success? ==>
      AreAddressesEqual(codec, a1, a2).value == AreAddressesEqual(codec, a2, a1).value
    ensures Acceptable(codec, a1) ==> AreAddressesEqual(codec, a1, a1) == Success(true)
  {
  }

  /** `trimLeading0x`: removes one leading "0x" (case-sensitive), if any. */
  function TrimLeading0x(input: string): (r: string)
    ensures StartsWith(input, "0x") ==> "0x" + r == input
    ensures !StartsWith(input, "0x") ==> r == input
  {
    if StartsWith(input, "0x") then input[2..] else input
  }

  /** `ensureLeading0x`: prefixes "0x" unless already present. */
  function EnsureLeading0x(input: string): (r: string)
    ensures StartsWith(r, "0x")
    ensures StartsWith(input, "0x") ==> r == input
    ensures !StartsWith(input, "0x") ==> r[2..] == input
  {
    if StartsWith(input, "0x") then input else "0x" + input
  }

  lemma EnsureLeading0xIdempotent(s: string)
    ensures EnsureLeading0x(EnsureLeading0x(s)) == EnsureLeading0x(s)
  {
  }

  /** The two helpers undo each other on the side where each one acts; the
      second direction needs the text after the prefix not to start with
      "0x" again: "0x0x" trims to "0x", which is already prefixed. */
  lemma Leading0xRoundTrips(s: string)
    ensures !StartsWith(s, "0x") ==> TrimLeading0x(EnsureLeading0x(s)) == s
    ensures StartsWith(s, "0x") && !StartsWith(s[2..], "0x") ==> EnsureLeading0x(TrimLeading0x(s)) == s
  {
    if !StartsWith(s, "0x") {
      assert StartsWith("0x" + s, "0x");
      assert ("0x" + s)[2..] == s;
    }
  }

}
