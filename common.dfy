/**
 * Shared vocabulary of the Redis providers: optional values, results that
 * carry the exception a provider operation would raise, and the rule by
 * which the `writeExceptionsToEventLog` setting turns any failure into the
 * generic provider exception.
 */
module Common {

  datatype Option<+T> = None | Some(value: T)

  /** What a provider operation raises instead of returning. */
  datatype Failure =
    | ConnectionFailed            // Exception("Redis connection failed.") wrapping a socket failure
    | TransportFailure            // any other error escaping the open-and-wait step, unchanged
    | MissingField(name: string)  // a hash field the code indexes or decodes is absent
    | MalformedField(name: string) // a hash field whose bytes do not decode as the code expects
    | NullLockId                  // a null lock id cast to Guid
    | CodecFailure                // a non-empty session blob that does not deserialize
    | DuplicateKey(name: string)  // Dictionary.Add or Hashtable.Add with a key already present
    | ArgumentNull(name: string)  // an ArgumentNullException
    | InvalidFormat               // a FormatException from parsing a configuration value
    | Overflow                    // an OverflowException: a well-formed number that does not fit its type
    | NegativeInBase              // an ArgumentException: a '-' sign in a conversion from a base other than 10
    | PasswordCancelled           // the ValidatingPassword hook cancelled a password change
    | IndexOutOfRange             // an array indexed past its end
    | ProviderFailure(message: string) // a ProviderException with the given message

  datatype Result<+T> = Ok(value: T) | Err(failure: Failure) {
    predicate IsFailure() {
      Err?
    }

    function PropagateFailure<U>(): Result<U>
      requires Err?
    {
      Err(failure)
    }

    function Extract(): T
      requires Ok?
    {
      value
    }
  }

  /** The values of the present entries, in order. */
  function Somes<T>(s: seq<Option<T>>): (r: seq<T>)
    ensures |r| <= |s|
    ensures |r| == |s| <==> forall i :: 0 <= i < |s| ==> s[i].Some?
  {
    if s == [] then []
    else (if s[0].Some? then [s[0].value] else []) + Somes(s[1..])
  }

  /** Somes distributes over concatenation. */
  lemma {:induction false} SomesAppend<T>(a: seq<Option<T>>, b: seq<Option<T>>)
    ensures Somes(a + b) == Somes(a) + Somes(b)
  {
    if a == [] {
      assert a + b == b;
    } else {
      assert (a + b)[0] == a[0];
      assert (a + b)[1..] == a[1..] + b;
      SomesAppend(a[1..], b);
    }
  }

  /** What a provider operation yields, together with the store it leaves behind. */
  datatype Outcome<+T, +S> = Outcome(result: Result<T>, state: S)

  const ExceptionMessage: string := "An exception occurred. Please check the Event Log."
  const ConnectionFailedMessage: string := "Redis connection failed."

  const Int32Min: int := -0x8000_0000
  const Int32Max: int := 0x7fff_ffff

  /** C#'s unchecked 32-bit `int` arithmetic: the value wrapped into [Int32Min, Int32Max]. */
  function Wrap32(x: int): (r: int)
    ensures Int32Min <= r <= Int32Max
    ensures (r - x) % 0x1_0000_0000 == 0
    ensures Int32Min <= x <= Int32Max ==> r == x
  {
    (x - Int32Min) % 0x1_0000_0000 + Int32Min
  }

  /**
   * The catch block shared by the providers: with `writeExceptionsToEventLog`
   * the failure is logged and replaced by a ProviderException carrying the
   * generic message; otherwise it is rethrown unchanged.
   */
  function Surface(writeToEventLog: bool, f: Failure): (s: Failure)
    ensures writeToEventLog ==> s == ProviderFailure(ExceptionMessage)
    ensures !writeToEventLog ==> s == f
  {
    if writeToEventLog then ProviderFailure(ExceptionMessage) else f
  }

  /** `Surface` lifted to a result: successes pass through. */
  function SurfaceResult<T>(writeToEventLog: bool, r: Result<T>): (s: Result<T>)
    ensures r.Ok? <==> s.Ok?
    ensures r.Ok? ==> s == r
    ensures r.Err? ==> s == Err(Surface(writeToEventLog, r.failure))
  {
    match r
    case Ok(_) => r
    case Err(f) => Err(Surface(writeToEventLog, f))
  }
}
