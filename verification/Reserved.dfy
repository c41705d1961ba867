/** Kubelet reservations: resource quantities turned into the integer fields of a CreateNode request. */
module Reserved {
  import opened Base

  const MI: int := 1024 * 1024
  const GI: int := 1024 * 1024 * 1024

  function Ceil(q: real): int {
    -((-q).Floor)
  }

  /** The parsers of quantities and of decimal integers, and what a quantity's integer views return
      when the value is too large for an `int64` (anything that fits). A decimal integer is also a
      quantity, of the same value. */
  datatype Library = Library(parse: string -> Option<real>, parsePID: string -> Option<int>, overflow: real -> int) {
    ghost predicate Valid() {
      && (forall q :: Fits64(overflow(q)))
      && (forall text :: parsePID(text).Some? ==> parse(text) == Some(parsePID(text).value as real))
    }

    /** `Value` rounds up. */
    function Value(q: real): int {
      if Fits64(Ceil(q)) then Ceil(q) else overflow(q)
    }

    /** `MilliValue` rounds the thousandths up. */
    function MilliValue(q: real): int {
      Value(q * 1000.0)
    }
  }

  function ToInt32(value: int): Result<int, string> {
    if value < 0 then Err("must be non-negative")
    else if value > MAX_INT32 then Err("exceeds the maximum supported value")
    else Ok(value)
  }

  function ParseMilli(lib: Library, text: string): Result<int, string> {
    var q := lib.parse(text);
    if q.None? then Err("must be a valid CPU quantity") else
    var milli := lib.MilliValue(q.value);
    if milli as real / 1000.0 != q.value then Err("must convert exactly to mcore") else ToInt32(milli)
  }

  function ParseUnits(lib: Library, text: string, unit: int): Result<int, string>
    requires 0 < unit
  {
    var q := lib.parse(text);
    if q.None? then Err("must be a valid resource quantity") else
    var base := lib.Value(q.value);
    if base - GoDiv(base, unit) * unit != 0 then Err("must convert exactly") else
    if (GoDiv(base, unit) * unit) as real != q.value then Err("must convert exactly") else
    ToInt32(GoDiv(base, unit))
  }

  function ParsePID(lib: Library, text: string): Result<int, string> {
    var n := lib.parsePID(text);
    if n.None? then Err("must be a valid integer") else ToInt32(n.value)
  }

  lemma CeilOfInt(n: int)
    ensures Ceil(n as real) == n
    ensures forall q: real :: q <= Ceil(q) as real < q + 1.0
  {
  }

  /** CPU: accepted with `n` exactly when the quantity is `n` thousandths and `n` is an int32 not
      below zero; rounding up never lets another quantity through. */
  lemma MilliExact(lib: Library, text: string, n: int)
    requires lib.Valid()
    ensures ParseMilli(lib, text) == Ok(n) <==>
              0 <= n <= MAX_INT32 && lib.parse(text) == Some(n as real / 1000.0)
  {
    if 0 <= n <= MAX_INT32 && lib.parse(text) == Some(n as real / 1000.0) {
      var q := lib.parse(text).value;
      assert q * 1000.0 == n as real;
      CeilOfInt(n);
    }
  }

  lemma QuotientExact(n: int, unit: int)
    requires 0 < unit && 0 <= n
    ensures n * unit / unit == n
  {
    var q := n * unit / unit;
    assert n * unit == q * unit + n * unit % unit;
    assert (q + 1) * unit == q * unit + unit;
    assert (n + 1) * unit == n * unit + unit;
    if q + 1 <= n {
      ProductMonotone(q + 1, n, unit);
    } else if n + 1 <= q {
      ProductMonotone(n + 1, q, unit);
    }
  }

  lemma UnitsFit(n: int, unit: int)
    requires 0 < unit <= GI && 0 <= n <= MAX_INT32
    ensures 0 <= n * unit && Fits64(n * unit)
  {
    ProductMonotone(n, MAX_INT32, unit);
    ProductMonotone(0, n, unit);
    assert MAX_INT32 * unit <= 0x7FFF_FFFF * 0x4000_0000;
  }

  /** Memory and storage: accepted with `n` exactly when the quantity is `n` whole units. */
  lemma UnitsExact(lib: Library, text: string, unit: int, n: int)
    requires lib.Valid() && 0 < unit <= GI
    ensures ParseUnits(lib, text, unit) == Ok(n) <==>
              0 <= n <= MAX_INT32 && lib.parse(text) == Some((n * unit) as real)
  {
    if 0 <= n <= MAX_INT32 && lib.parse(text) == Some((n * unit) as real) {
      UnitsFit(n, unit);
      CeilOfInt(n * unit);
      QuotientExact(n, unit);
    }
  }

  // ---------- a whole reservation ----------

  datatype Values = Values(cpu: Option<int>, memory: Option<int>, pid: Option<int>, storage: Option<int>)

  function ParseKey(lib: Library, key: string, text: string): Result<int, string> {
    if key == "cpu" then ParseMilli(lib, text)
    else if key == "memory" then ParseUnits(lib, text, MI)
    else if key == "ephemeral-storage" then ParseUnits(lib, text, GI)
    else if key == "pid" then ParsePID(lib, text)
    else Err("unsupported key")
  }

  /** Which text is accepted under which key, and as what. */
  lemma KeyAccepts(lib: Library, key: string, text: string, n: int)
    requires lib.Valid()
    ensures ParseKey(lib, key, text) == Ok(n) <==>
              && 0 <= n < 0x8000_0000
              && (|| (key == "cpu" && lib.parse(text) == Some(n as real / 1000.0))
                  || (key == "memory" && lib.parse(text) == Some((n * 1048576) as real))
                  || (key == "ephemeral-storage" && lib.parse(text) == Some((n * 1073741824) as real))
                  || (key == "pid" && lib.parsePID(text) == Some(n)))
  {
    if key == "cpu" {
      MilliExact(lib, text, n);
    } else if key == "memory" {
      UnitsExact(lib, text, MI, n);
    } else if key == "ephemeral-storage" {
      UnitsExact(lib, text, GI, n);
    }
  }

  function Field(v: Values, key: string): Option<int> {
    if key == "cpu" then v.cpu
    else if key == "memory" then v.memory
    else if key == "ephemeral-storage" then v.storage
    else if key == "pid" then v.pid
    else None
  }

  predicate Supported(key: string) {
    key in {"cpu", "memory", "ephemeral-storage", "pid"}
  }

  /** Each field is its key's quantity in thousandths, MiB, GiB or whole, absent exactly when the key is. */
  ghost predicate FieldsAreExact(lib: Library, values: map<string, string>, v: Values) {
    && (v.cpu == None <==> "cpu" !in values) && (v.memory == None <==> "memory" !in values)
    && (v.storage == None <==> "ephemeral-storage" !in values) && (v.pid == None <==> "pid" !in values)
    && (v.cpu.Some? ==> lib.parse(values["cpu"]) == Some(v.cpu.value as real / 1000.0))
    && (v.memory.Some? ==> lib.parse(values["memory"]) == Some((v.memory.value * 1048576) as real))
    && (v.storage.Some? ==> lib.parse(values["ephemeral-storage"]) == Some((v.storage.value * 1073741824) as real))
    && (v.pid.Some? ==> lib.parsePID(values["pid"]) == v.pid)
  }

  /** Reads the entries in whatever order the map yields them: all are accepted or none is used. */
  method ParseReservedValues(lib: Library, values: map<string, string>) returns (r: Result<Values, string>)
    ensures r.Ok? <==> forall key :: key in values ==> ParseKey(lib, key, values[key]).Ok?
    ensures r.Ok? ==> forall key :: Supported(key) ==>
              Field(r.value, key) == if key in values then Some(ParseKey(lib, key, values[key]).value) else None
    ensures r.Ok? && lib.Valid() ==> FieldsAreExact(lib, values, r.value)
  {
    var out := Values(None, None, None, None);
    var rest := values.Keys;
    while rest != {}
      invariant rest <= values.Keys
      invariant forall key :: key in values.Keys - rest ==> ParseKey(lib, key, values[key]).Ok?
      invariant forall key :: Supported(key) ==>
                  Field(out, key) ==
                    if key in values.Keys - rest then Some(ParseKey(lib, key, values[key]).value) else None
    {
      var key :| key in rest;
      rest := rest - {key};
      var parsed := ParseKey(lib, key, values[key]);
      if parsed.Err? {
        return Err(parsed.error);
      }
      if key == "cpu" {
        out := out.(cpu := Some(parsed.value));
      } else if key == "memory" {
        out := out.(memory := Some(parsed.value));
      } else if key == "ephemeral-storage" {
        out := out.(storage := Some(parsed.value));
      } else {
        out := out.(pid := Some(parsed.value));
      }
    }
    if lib.Valid() {
      FieldsMeaning(lib, values, out);
    }
    return Ok(out);
  }

  lemma FieldsMeaning(lib: Library, values: map<string, string>, v: Values)
    requires lib.Valid()
    requires forall key :: key in values ==> ParseKey(lib, key, values[key]).Ok?
    requires forall key :: Supported(key) ==>
               Field(v, key) == if key in values then Some(ParseKey(lib, key, values[key]).value) else None
    ensures FieldsAreExact(lib, values, v)
  {
    assert v.cpu == Field(v, "cpu") && v.memory == Field(v, "memory");
    assert v.storage == Field(v, "ephemeral-storage") && v.pid == Field(v, "pid");
    forall key | Supported(key) && key in values {
      KeyAccepts(lib, key, values[key], Field(v, key).value);
    }
  }

  /** What the scheduler subtracts for a key: the configured quantity as parsed. */
  function Subtracted(lib: Library, values: map<string, string>, key: string): Option<real> {
    if key in values then lib.parse(values[key]) else None
  }

  function InUnits(n: Option<int>, key: string): Option<real> {
    if n.None? then None
    else if key == "cpu" then Some(n.value as real / 1000.0)
    else if key == "memory" then Some((n.value * MI) as real)
    else if key == "ephemeral-storage" then Some((n.value * GI) as real)
    else Some(n.value as real)
  }

  /** An accepted reservation is the same amount in the CreateNode request and in the scheduler's
      overhead, for every key the scheduler subtracts. */
  lemma SentEqualsSubtracted(lib: Library, values: map<string, string>, sent: Values, key: string)
    requires lib.Valid() && Supported(key)
    requires forall k :: k in values ==> ParseKey(lib, k, values[k]).Ok?
    requires forall k :: Supported(k) ==>
               Field(sent, k) == if k in values then Some(ParseKey(lib, k, values[k]).value) else None
    ensures InUnits(Field(sent, key), key) == Subtracted(lib, values, key)
  {
  }
}
