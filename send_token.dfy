/** Send validation and transfer building (src/features/send/sendToken.ts).
    The amount and fee validators, `utils.isAddress`, `isSignerLedger`,
    `getAdjustedAmountFromBalances`, `createPlaceholderForTx` and
    `signTransaction` are foreign and are passed in. Contract calls built with
    `populateTransaction` are kept as symbolic calls. */
module SendToken {
  import opened Common
  import opened TxTypes
  import opened WalletSlice
  import opened JsString

  /** A fee estimate, as far as this module looks at it. */
  datatype FeeEstimate = FeeEstimate(gasPrice: nat, gasLimit: nat, fee: nat, currency: Currency)

  /** `SendTokenParams`; `amountInWei` is a decimal string (falsy when empty). */
  datatype SendTokenParams = SendTokenParams(
    recipient: string,
    amountInWei: string,
    currency: Currency,
    comment: Option<string>,
    feeEstimate: Option<FeeEstimate>)

  /** `ErrorState`: the validity flag and the help text per invalid field. */
  datatype ErrorState = ErrorState(isValid: bool, fields: map<string, string>)

  const NoErrors := ErrorState(true, map[])

  /** `invalidInput(field, helpText)`. */
  function InvalidInput(field: string, helpText: string): ErrorState
  {
    ErrorState(false, map[field := helpText])
  }

  /** The object spread `{ ...errors, ...extra }`; spreading null adds nothing. */
  function Spread(errors: ErrorState, extra: Option<ErrorState>): ErrorState
  {
    match extra
    case None => errors
    case Some(e) => ErrorState(e.isValid, errors.fields + e.fields)
  }

  /** Spreading keeps every field of both objects, the later one winning a
      shared name, and takes `isValid` from the later object. */
  lemma SpreadIsMerge(errors: ErrorState, extra: Option<ErrorState>)
    ensures extra.None? ==> Spread(errors, extra) == errors
    ensures extra.Some? ==> Spread(errors, extra).isValid == extra.value.isValid
    ensures Spread(errors, extra).fields.Keys == errors.fields.Keys + (if extra.Some? then extra.value.fields.Keys else {})
    ensures extra.Some? ==> forall k :: k in extra.value.fields ==> Spread(errors, extra).fields[k] == extra.value.fields[k]
    ensures forall k :: k in errors.fields && (extra.None? || k !in extra.value.fields) ==>
      Spread(errors, extra).fields[k] == errors.fields[k]
  {
  }

  /** The caps on a single transfer and on the comment (from src/consts). */
  datatype SendLimits = SendLimits(maxSendTokenSize: nat, maxSendTokenSizeLedger: nat, maxCommentCharLength: nat)

  /** The foreign helpers `validate` calls. */
  datatype Validators = Validators(
    isAddress: string -> bool,
    isSignerLedger: bool,
    validateAmount: (string, Currency, Balances, Option<nat>) -> Option<ErrorState>,
    validateFeeEstimate: Option<FeeEstimate> -> Option<ErrorState>,
    validateAmountWithFees: (string, Currency, Balances, Option<seq<FeeEstimate>>) -> Option<ErrorState>)

  /** The cap handed to `validateAmount`. */
  function MaxAmount(validateMaxAmount: bool, isSignerLedger: bool, limits: SendLimits): (m: Option<nat>)
    ensures m.None? <==> !validateMaxAmount
    ensures m.Some? ==> m.value == if isSignerLedger then limits.maxSendTokenSizeLedger else limits.maxSendTokenSize
  {
    if !validateMaxAmount then None
    else if isSignerLedger then Some(limits.maxSendTokenSizeLedger)
    else Some(limits.maxSendTokenSize)
  }

  /** The recipient errors: `isAddress` is asked first, so the
      'Recipient is required' text appears only when `isAddress("")` holds. */
  function RecipientCheck(recipient: string, isAddress: string -> bool): (c: Option<ErrorState>)
    ensures !isAddress(recipient) ==> c == Some(InvalidInput("recipient", "Invalid Recipient"))
    ensures isAddress(recipient) && recipient == "" ==> c == Some(InvalidInput("recipient", "Recipient is required"))
    ensures c.None? <==> isAddress(recipient) && recipient != ""
  {
    if !isAddress(recipient) then Some(InvalidInput("recipient", "Invalid Recipient"))
    else if recipient == "" then Some(InvalidInput("recipient", "Recipient is required"))
    else None
  }

  /** A comment is too long only when present, non-empty and over the cap. */
  predicate CommentTooLong(comment: Option<string>, limits: SendLimits)
    // more characters than the cap is always too long; a comment can be too
    // long with fewer characters, but not with half as many
    ensures comment.Some? && |comment.value| > limits.maxCommentCharLength ==> CommentTooLong(comment, limits)
    ensures CommentTooLong(comment, limits) ==> comment.Some? && 2 * |comment.value| > limits.maxCommentCharLength
  {
    comment.Some? && comment.value != "" && |Utf16(comment.value)| > limits.maxCommentCharLength
  }

  /** The fields a check's contribution names (none when it reports nothing). */
  function FieldsOf(c: Option<ErrorState>): set<string>
  {
    if c.Some? then c.value.fields.Keys else {}
  }

  /** The errors after spreading each check's contribution in turn. */
  function Accumulate(checks: seq<Option<ErrorState>>): ErrorState
  {
    if checks == [] then NoErrors
    else Spread(Accumulate(checks[..|checks| - 1]), checks[|checks| - 1])
  }

  /** A field is reported exactly when some check reports it, and it holds
      the message of the last check that does. */
  lemma {:induction false} AccumulateFields(checks: seq<Option<ErrorState>>, k: string)
    ensures k in Accumulate(checks).fields <==> exists i :: 0 <= i < |checks| && k in FieldsOf(checks[i])
    ensures forall i :: 0 <= i < |checks| && k in FieldsOf(checks[i])
                        && (forall j :: i < j < |checks| ==> k !in FieldsOf(checks[j])) ==>
      Accumulate(checks).fields[k] == checks[i].value.fields[k]
  {
    if checks != [] {
      var n := |checks| - 1;
      var init := checks[..n];
      AccumulateFields(init, k);
      SpreadIsMerge(Accumulate(init), checks[n]);
      assert forall i :: 0 <= i < n ==> init[i] == checks[i];
      if k in Accumulate(checks).fields && k !in FieldsOf(checks[n]) {
        var i :| 0 <= i < n && k in FieldsOf(init[i]);
        assert k in FieldsOf(checks[i]);
      }
    }
  }

  /** The contributions `validate` spreads, in order: the amount, the
      recipient, the comment, then the fee estimate and the amount with
      fees (nothing when `validateFee` is off). */
  function ValidationChecks(params: SendTokenParams, balances: Balances, validateMaxAmount: bool, validateFee: bool,
                            limits: SendLimits, v: Validators): (checks: seq<Option<ErrorState>>)
    ensures |checks| == 5
    ensures checks[2].Some? <==> CommentTooLong(params.comment, limits)
    ensures !validateFee ==> checks[3].None? && checks[4].None?
  {
    [ if params.amountInWei == "" then Some(InvalidInput("amount", "Amount Missing"))
      else v.validateAmount(params.amountInWei, params.currency, balances, MaxAmount(validateMaxAmount, v.isSignerLedger, limits)),
      RecipientCheck(params.recipient, v.isAddress),
      if CommentTooLong(params.comment, limits) then Some(InvalidInput("comment", "Comment is too long")) else None,
      if validateFee then v.validateFeeEstimate(params.feeEstimate) else None,
      if validateFee then v.validateAmountWithFees(params.amountInWei, params.currency, balances,
                                                   if params.feeEstimate.Some? then Some([params.feeEstimate.value]) else None)
      else None ]
  }

  /** A check's contribution marks the state invalid (as `invalidInput` does). */
  predicate Flags(c: Option<ErrorState>)
  {
    c.Some? ==> !c.value.isValid
  }

  /** `validate`: accumulates one error per failed check into the state. */
  method Validate(params: SendTokenParams, balances: Balances, validateMaxAmount: bool, validateFee: bool,
                  limits: SendLimits, v: Validators) returns (errors: ErrorState)
    // a missing amount is reported and `validateAmount` is not consulted
    ensures params.amountInWei == "" && !validateFee ==>
      !errors.isValid && "amount" in errors.fields && errors.fields["amount"] == "Amount Missing"
    ensures !v.isAddress(params.recipient) ==>
      "recipient" in errors.fields && (!validateFee ==> !errors.isValid && errors.fields["recipient"] == "Invalid Recipient")
    ensures CommentTooLong(params.comment, limits) && !validateFee ==>
      !errors.isValid && "comment" in errors.fields && errors.fields["comment"] == "Comment is too long"
    // without the fee checks, a valid result means every local check passed
    ensures errors.isValid && !validateFee ==>
      params.amountInWei != "" && v.isAddress(params.recipient) && params.recipient != "" && !CommentTooLong(params.comment, limits)
    // when no check reports anything the result is `{ isValid: true }`
    ensures params.amountInWei != ""
      && v.validateAmount(params.amountInWei, params.currency, balances,
                          MaxAmount(validateMaxAmount, v.isSignerLedger, limits)).None?
      && v.isAddress(params.recipient) && params.recipient != ""
      && !CommentTooLong(params.comment, limits)
      && (validateFee ==>
            (&& v.validateFeeEstimate(params.feeEstimate).None?
             && v.validateAmountWithFees(params.amountInWei, params.currency, balances,
                  if params.feeEstimate.Some? then Some([params.feeEstimate.value]) else None).None?))
      ==> errors == NoErrors
    // with validators that report only failures, valid means nothing was reported
    ensures
      var amountCheck := if params.amountInWei == "" then None
        else v.validateAmount(params.amountInWei, params.currency, balances, MaxAmount(validateMaxAmount, v.isSignerLedger, limits));
      var feeCheck := v.validateFeeEstimate(params.feeEstimate);
      var fundsCheck := v.validateAmountWithFees(params.amountInWei, params.currency, balances,
        if params.feeEstimate.Some? then Some([params.feeEstimate.value]) else None);
      Flags(amountCheck) && Flags(feeCheck) && Flags(fundsCheck) ==>
        (errors.isValid <==>
          && params.amountInWei != "" && amountCheck.None?
          && RecipientCheck(params.recipient, v.isAddress).None?
          && !CommentTooLong(params.comment, limits)
          && (validateFee ==> feeCheck.None? && fundsCheck.None?))
    // the result folds the five checks' contributions, in the source's order
    ensures errors == Accumulate(ValidationChecks(params, balances, validateMaxAmount, validateFee, limits, v))
  {
    ghost var checks := ValidationChecks(params, balances, validateMaxAmount, validateFee, limits, v);
    errors := NoErrors;

    if params.amountInWei == "" {
      errors := Spread(errors, Some(InvalidInput("amount", "Amount Missing")));
    } else {
      var maxAmount := MaxAmount(validateMaxAmount, v.isSignerLedger, limits);
      errors := Spread(errors, v.validateAmount(params.amountInWei, params.currency, balances, maxAmount));
    }
    assert errors == Accumulate(checks[..1]) by {
      assert checks[..1][..0] == [];
    }

    errors := Spread(errors, RecipientCheck(params.recipient, v.isAddress));
    assert errors == Accumulate(checks[..2]) by {
      assert checks[..2][..1] == checks[..1];
    }

    if CommentTooLong(params.comment, limits) {
      errors := Spread(errors, Some(InvalidInput("comment", "Comment is too long")));
    }
    assert errors == Accumulate(checks[..3]) by {
      assert checks[..3][..2] == checks[..2];
    }

    if validateFee {
      var fees := if params.feeEstimate.Some? then Some([params.feeEstimate.value]) else None;
      errors := Spread(Spread(errors, v.validateFeeEstimate(params.feeEstimate)),
                       v.validateAmountWithFees(params.amountInWei, params.currency, balances, fees));
    }
    assert errors == Accumulate(checks[..5]) by {
      assert checks[..5][..4] == checks[..4];
      assert checks[..4][..3] == checks[..3];
    }
    assert checks[..5] == checks;
  }

  /** The token contracts a transfer can call. */
  datatype CeloContract = GoldToken | StableToken

  datatype TokenCall =
    | Transfer(to: string, value: nat)
    | TransferWithComment(to: string, value: nat, comment: string)

  /** An unsigned transaction: a native transfer or a contract call. */
  datatype UnsignedTx =
    | PlainTransfer(to: string, value: nat)
    | ContractCall(contract: CeloContract, call: TokenCall)

  datatype TransferTx = TransferTx(tx: UnsignedTx, txType: TransactionType)

  function Recipient(tx: UnsignedTx): string
  {
    match tx
    case PlainTransfer(to, _) => to
    case ContractCall(_, call) => call.to
  }

  function Amount(tx: UnsignedTx): nat
  {
    match tx
    case PlainTransfer(_, value) => value
    case ContractCall(_, call) => call.value
  }

  function CommentOf(tx: UnsignedTx): Option<string>
  {
    match tx
    case ContractCall(_, TransferWithComment(_, _, c)) => Some(c)
    case _ => None
  }

  /** The transaction type each supported currency's transfer produces. */
  function TransferTypeFor(currency: Currency): TransactionType
  {
    if currency == CELO then CeloTokenTransfer else StableTokenTransfer
  }

  /** `getTokenTransferTx`: CELO and cUSD only; a comment (when truthy) goes
      through `transferWithComment`. */
  function GetTokenTransferTx(currency: Currency, recipient: string, amount: nat, comment: Option<string>): (r: Result<TransferTx>)
    ensures r.Success? <==> currency == CELO || currency == CUSD
    ensures r.Success? ==> Recipient(r.value.tx) == recipient && Amount(r.value.tx) == amount
    ensures r.Success? ==> r.value.txType == TransferTypeFor(currency)
    ensures r.Success? ==> CommentOf(r.value.tx) == if comment.Some? && comment.value != "" then comment else None
    // an uncommented CELO transfer is a plain value transfer, no contract call
    ensures r.Success? ==> (r.value.tx.PlainTransfer? <==> currency == CELO && (comment.None? || comment.value == ""))
    ensures r.Success? && r.value.tx.ContractCall? ==> r.value.tx.contract == if currency == CELO then GoldToken else StableToken
  {
    var hasComment := comment.Some? && comment.value != "";
    if currency == CELO then
      if hasComment then
        Success(TransferTx(ContractCall(GoldToken, TransferWithComment(recipient, amount, comment.value)), CeloTokenTransfer))
      else
        Success(TransferTx(PlainTransfer(recipient, amount), CeloTokenTransfer))
    else if currency == CUSD then
      if hasComment then
        Success(TransferTx(ContractCall(StableToken, TransferWithComment(recipient, amount, comment.value)), StableTokenTransfer))
      else
        Success(TransferTx(ContractCall(StableToken, Transfer(recipient, amount)), StableTokenTransfer))
    else
      Failure("Unsupported currency")
  }

  datatype SignedSend = SignedSend(signedTx: string, txType: TransactionType)

  /** `createSendTx`: refuses without a fee estimate before anything is
      adjusted or signed; signs the transfer of the adjusted amount. The
      signer may reject (a Ledger user declines, say), and its rejection is
      passed on. */
  function CreateSendTx(
    params: SendTokenParams,
    balances: Balances,
    adjustAmount: (string, Currency, Balances, seq<FeeEstimate>) -> nat,
    sign: (UnsignedTx, FeeEstimate) -> Result<string>): (r: Result<SignedSend>)
    ensures params.feeEstimate.None? ==> r == Failure("Fee estimate is missing")
    ensures params.feeEstimate.Some? && params.currency != CELO && params.currency != CUSD ==>
      r == Failure("Unsupported currency")
    ensures params.feeEstimate.Some? && (params.currency == CELO || params.currency == CUSD) ==>
      var adjusted := adjustAmount(params.amountInWei, params.currency, balances, [params.feeEstimate.value]);
      var t := GetTokenTransferTx(params.currency, params.recipient, adjusted, params.comment);
      var signed := sign(t.value.tx, params.feeEstimate.value);
      && (signed.Failure? ==> r == Failure(signed.error))
      && (signed.Success? ==> r.Success? && r.value.signedTx == signed.value)
    ensures r.Success? ==>
      && params.feeEstimate.Some? && (params.currency == CELO || params.currency == CUSD)
      && r.value.txType == TransferTypeFor(params.currency)
  {
    if params.feeEstimate.None? then Failure("Fee estimate is missing")
    else
      var fee := params.feeEstimate.value;
      var adjusted := adjustAmount(params.amountInWei, params.currency, balances, [fee]);
      match GetTokenTransferTx(params.currency, params.recipient, adjusted, params.comment)
      case Failure(e) => Failure(e)
      case Success(t) =>
        match sign(t.tx, fee)
        case Failure(e) => Failure(e)
        case Success(signed) => Success(SignedSend(signed, t.txType))
  }

  /** What `createPlaceholderForTx` fills in from the transaction receipt,
      the amount and the fee estimate (its body is not part of this model). */
  datatype PlaceholderBase = PlaceholderBase(hash: string, from: string, value: nat, blockNumber: nat, timestamp: int, fee: nat)

  /** `getPlaceholderTx`: the optimistic feed entry for a sent transfer. */
  function GetPlaceholderTx(params: SendTokenParams, createPlaceholder: (string, FeeEstimate) -> PlaceholderBase, txType: TransactionType): (r: Result<CeloTransaction>)
    ensures params.feeEstimate.None? ==> r.Failure?
    ensures r.Success? <==> params.feeEstimate.Some? && (txType == CeloTokenTransfer || txType == StableTokenTransfer)
    ensures r.Success? ==>
      && r.value.isOutgoing && r.value.to == params.recipient && r.value.txType == txType
      && r.value.comment == params.comment
      && r.value.currency == (if txType == CeloTokenTransfer then CELO else CUSD)
      && r.value.hash == createPlaceholder(params.amountInWei, params.feeEstimate.value).hash
  {
    if params.feeEstimate.None? then Failure("Params must have fee estimate to create placeholder tx")
    else
      var base := createPlaceholder(params.amountInWei, params.feeEstimate.value);
      var currency :=
        if txType == CeloTokenTransfer then CELO
        else if txType == StableTokenTransfer then CUSD
        else OtherCurrency("");
      if currency.OtherCurrency? then Failure("Unsupported placeholder type")
      else
        Success(CeloTransaction(base.hash, txType, base.from, params.recipient, base.value, currency,
                                true, params.comment, base.blockNumber, base.timestamp, base.fee))
  }

  /** The placeholder of a successful send records the currency that was
      sent: the type chosen for the currency maps back to it. */
  lemma PlaceholderRecordsSentCurrency(
    params: SendTokenParams,
    balances: Balances,
    adjustAmount: (string, Currency, Balances, seq<FeeEstimate>) -> nat,
    sign: (UnsignedTx, FeeEstimate) -> Result<string>,
    createPlaceholder: (string, FeeEstimate) -> PlaceholderBase)
    requires CreateSendTx(params, balances, adjustAmount, sign).Success?
    ensures var sent := CreateSendTx(params, balances, adjustAmount, sign).value;
      var p := GetPlaceholderTx(params, createPlaceholder, sent.txType);
      p.Success? && p.value.currency == params.currency && p.value.to == params.recipient
  {
  }
}
