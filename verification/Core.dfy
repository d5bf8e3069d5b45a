/** Error codes and value-based results shared by every component. */
module Core {

  datatype Option<+T> = None | Some(value: T)

  datatype Error =
    | InvalidArgument
    | InvalidState
    | NotImplemented
    | Timeout
    | NotFound
    | Capacity
    | ConnectFailed
    | DnsFailed
    | TlsHandshakeFailed
    | CertVerifyFailed
    | WriteFailed
    | ReadFailed
    | ConnectionClosed
    | HttpMalformed
    | HttpBodyTooLarge
    | SchemaValidationFailed
    | Unauthorized
    | Forbidden
    | SecretNotFound
    | ProviderError
    | RateLimited
    | ToolIterationLimit
    | BudgetExceeded
    | JsonParseError

  /** Success or failure without a payload. */
  datatype Status = Ok | Fail(error: Error)

  /** Success with a value, or failure. */
  datatype Result<+T> = Success(value: T) | Failure(error: Error)

  /** One more than the largest value of the 32-bit `size_t` and `uint32_t`. */
  const TWO_32: nat := 0x1_0000_0000
  const TWO_31: nat := 0x8000_0000

  type Uint8 = n: nat | n < 0x100
  type Uint32 = n: nat | n < TWO_32

  /** One byte, as a character below 256, and the strings made of them. */
  type Byte = c: char | c as int < 256 witness 'a'
  type Bytes = seq<Byte>
}
