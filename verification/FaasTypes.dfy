/** Values shared by the catalog, the scaler and the deployment code. */
module FaasTypes {

  datatype Option<+T> = None | Some(value: T)

  datatype Result<+T, +E> = Ok(value: T) | Err(error: E)

  /** A Go `*map[string]string`: the pointer may be nil, and so may the map it points to. */
  datatype MapPointer = NilPointer | NilMap | Allocated(entries: map<string, string>)

  /** The summary of a function that peers exchange and that the catalog stores. */
  datatype FunctionStatus = FunctionStatus(
    name: string,
    image: string,
    namespace: string,
    envProcess: string,
    envVars: map<string, string>,
    secrets: seq<string>,
    labels: map<string, string>,
    annotations: MapPointer,
    replicas: nat,
    availableReplicas: nat)

  /** The largest replica count the licence allows. */
  const MAX_REPLICAS := 10

  const INT32_MODULUS := 0x1_0000_0000
  const INT32_LIMIT := 0x8000_0000
  const INT64_LIMIT := 0x8000_0000_0000_0000
  const INT64_MODULUS := 0x1_0000_0000_0000_0000

  /** Go's `int32(n)` conversion of an unsigned 64-bit value: keep the low 32 bits, as two's complement. */
  function ToInt32(n: nat): (r: int)
    ensures -INT32_LIMIT <= r < INT32_LIMIT
    ensures (n - r) % INT32_MODULUS == 0
    ensures n < INT32_LIMIT ==> r == n
  {
    var low := n % INT32_MODULUS;
    if low < INT32_LIMIT then low else low - INT32_MODULUS
  }

  /** Go's `uint64(n)` conversion of a signed value. */
  function ToUint64(n: int): (r: nat)
    requires -INT64_LIMIT <= n < INT64_LIMIT
    ensures 0 <= n ==> r == n
    ensures (r - n) % INT64_MODULUS == 0
  {
    if n < 0 then n + INT64_MODULUS else n
  }
}
