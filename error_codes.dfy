/** Result codes of the ledger engine and their translation into messages and
    HTTP statuses. Only `OK == 0` is fixed by the engine (it replies with success
    exactly on code 0); the three failure codes just need to be distinct and
    non-zero, and the values below are chosen to be. */
module ErrorCodesTranslator {

  const OK: int := 0
  const INSUFFICIENT_FUNDS: int := 1
  const ACCOUNT_DOESNT_EXIST: int := 2
  const TECHNICAL_ERROR: int := 3

  const INVALID_TRANSACTION_AMOUNT_MESSAGE: string := "Transaction amount should be grater than 0"
  const INVALID_TRANSACTION_TYPE_MESSAGE: string := "Unsupported transaction type"
  const NOT_NULLABLE_ACCOUNT_ID_MESSAGE: string := "Source account id cannot be null"
  const INSUFFICIENT_FUNDS_MESSAGE: string := "Insufficient funds on the account to charge"
  const ACCOUNT_DOESNT_EXIST_MESSAGE: string := "Requested account doesn't exist"
  const TECHNICAL_ERROR_MESSAGE: string := "Technical error"
  const UNKNOWN_ERROR_MESSAGE: string := "Unknown error"

  const BAD_REQUEST: int := 400
  const INTERNAL_SERVER_ERROR: int := 500

  /** The outcome of one deposit, withdraw or transfer, before it becomes a number. */
  datatype Outcome = Ok | InsufficientFunds | AccountDoesntExist | TechnicalError
  {
    /** The numeric code the engine reports for this outcome. */
    function Code(): (c: int)
      ensures c == OK <==> this == Ok
      ensures this != Ok ==> IsMapped(c)
    {
      match this
      case Ok => OK
      case InsufficientFunds => INSUFFICIENT_FUNDS
      case AccountDoesntExist => ACCOUNT_DOESNT_EXIST
      case TechnicalError => TECHNICAL_ERROR
    }
  }

  /** The codes both translation tables have an entry for. */
  predicate IsMapped(code: int)
  {
    code == INSUFFICIENT_FUNDS || code == ACCOUNT_DOESNT_EXIST || code == TECHNICAL_ERROR
  }

  const ErrorCodesToHttpCodes: map<int, int> :=
    map[INSUFFICIENT_FUNDS := BAD_REQUEST, ACCOUNT_DOESNT_EXIST := BAD_REQUEST,
        TECHNICAL_ERROR := INTERNAL_SERVER_ERROR]

  const ErrorCodesToMessages: map<int, string> :=
    map[INSUFFICIENT_FUNDS := INSUFFICIENT_FUNDS_MESSAGE, ACCOUNT_DOESNT_EXIST := ACCOUNT_DOESNT_EXIST_MESSAGE,
        TECHNICAL_ERROR := TECHNICAL_ERROR_MESSAGE]

  /** `Map.getOrDefault`. */
  function GetOrDefault<K, V>(m: map<K, V>, key: K, default: V): V
  {
    if key in m then m[key] else default
  }

  /** The message for a code; never fails, whatever the code. */
  function TranslateErrorCode(code: int): (message: string)
    ensures code == INSUFFICIENT_FUNDS ==> message == INSUFFICIENT_FUNDS_MESSAGE
    ensures code == ACCOUNT_DOESNT_EXIST ==> message == ACCOUNT_DOESNT_EXIST_MESSAGE
    ensures code == TECHNICAL_ERROR ==> message == TECHNICAL_ERROR_MESSAGE
    ensures !IsMapped(code) ==> message == TECHNICAL_ERROR_MESSAGE
  {
    GetOrDefault(ErrorCodesToMessages, code, TECHNICAL_ERROR_MESSAGE)
  }

  /** What the response-writing overload puts on the wire. */
  datatype HttpReply = HttpReply(status: int, body: string)

  /** The status and text the response-writing overload chooses for a code
      (the writing of the response itself is not modelled). */
  function TranslateErrorCodeToReply(code: int): (r: HttpReply)
    ensures r.status == BAD_REQUEST || r.status == INTERNAL_SERVER_ERROR
    ensures code == INSUFFICIENT_FUNDS || code == ACCOUNT_DOESNT_EXIST ==> r.status == BAD_REQUEST
    ensures code == TECHNICAL_ERROR ==> r.status == INTERNAL_SERVER_ERROR
    ensures !IsMapped(code) ==> r == HttpReply(INTERNAL_SERVER_ERROR, UNKNOWN_ERROR_MESSAGE)
    ensures IsMapped(code) ==> r.body == TranslateErrorCode(code)
  {
    HttpReply(GetOrDefault(ErrorCodesToHttpCodes, code, INTERNAL_SERVER_ERROR),
              GetOrDefault(ErrorCodesToMessages, code, UNKNOWN_ERROR_MESSAGE))
  }

  /** The two overloads disagree exactly on the codes neither table knows. */
  lemma OverloadsAgreeIffMapped(code: int)
    ensures TranslateErrorCodeToReply(code).body == TranslateErrorCode(code) <==> IsMapped(code)
  {
    if !IsMapped(code) {
      assert TranslateErrorCode(code)[0] != TranslateErrorCodeToReply(code).body[0];
    }
  }

  /** Every engine failure is a client error except a technical one. */
  lemma OutcomeStatus(o: Outcome)
    requires o != Ok
    ensures TranslateErrorCodeToReply(o.Code()).status == (if o == TechnicalError then INTERNAL_SERVER_ERROR else BAD_REQUEST)
    ensures TranslateErrorCodeToReply(o.Code()).body == TranslateErrorCode(o.Code())
  {
  }
}
