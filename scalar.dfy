/**
 * The nullable scalar wrappers of scalar.go: `GqlBool`, `GqlFloat64`, `GqlInt64`,
 * `GqlString` and `GqlTime` pair a payload with a `Valid` flag and write JSON
 * `null` when the flag is off. They differ only in the payload type, so one
 * generic wrapper models all five.
 *
 * JSON text is abstract here: `Json<T>` is what the standard decoder makes of
 * the incoming bytes for a payload of type `T` (the literal `null`, a value of
 * the payload type, or a decoding error), and what the encoder produces.
 */
module Scalar {
  import opened Wrappers

  newtype int64 = x: int | -0x8000_0000_0000_0000 <= x < 0x8000_0000_0000_0000

  /** A float64, kept as its IEEE-754 bits: the wrappers only store it. */
  type Float64 = bv64

  /** A time.Time (wall clock bits, monotonic/extended part, location), only stored. */
  datatype Time = Time(wall: bv64, ext: int64, location: string)

  /** Why `json.Unmarshal` failed: malformed input, or a JSON value of the wrong type. */
  datatype JsonError = SyntaxError | UnmarshalTypeError

  /** Decoded JSON for a payload of type `T`. */
  datatype Json<T> = JNull | JVal(value: T) | JBad(error: JsonError)

  /** The outcome of `UnmarshalJSON`: the receiver's new value and the error returned. */
  datatype Decoded<T> = Decoded(state: Nullable<T>, err: Option<JsonError>)

  /** A wrapper value: the Go struct `{X T; Valid bool}`. */
  datatype Nullable<T> = Nullable(payload: T, valid: bool) {

    /** `MarshalJSON` (value receiver): `null` when not valid, else the payload. */
    function MarshalJSON(): (j: Json<T>)
      ensures j == JNull <==> !valid
      ensures valid ==> j == JVal(payload)
    {
      if valid then JVal(payload) else JNull
    }

    /** What `UnmarshalJSON` does to a receiver holding this value. */
    function Unmarshal(data: Json<T>): (d: Decoded<T>)
      ensures data.JBad? ==> d == Decoded(this, Some(data.error))
      ensures data.JNull? ==> d == Decoded(Nullable(payload, false), None)
      ensures data.JVal? ==> d == Decoded(Nullable(data.value, true), None)
    {
      match data
      case JBad(e) => Decoded(this, Some(e))
      case JNull => Decoded(this.(valid := false), None)
      case JVal(v) => Decoded(Nullable(v, true), None)
    }
  }

  type GqlBool = Nullable<bool>
  type GqlFloat64 = Nullable<Float64>
  type GqlInt64 = Nullable<int64>
  type GqlString = Nullable<string>
  type GqlTime = Nullable<Time>

  /** A wrapper in memory, addressed through a pointer: the receiver of `UnmarshalJSON`. */
  class NullableRef<T> {
    var payload: T
    var valid: bool

    /** A valid wrapper holding `x`: the `&GqlX{X: x, Valid: true}` of every `NewX`. */
    constructor (x: T)
      ensures payload == x && valid
    {
      payload := x;
      valid := true;
    }

    /** The struct value behind the pointer (`*p`). */
    function Value(): Nullable<T>
      reads this
    {
      Nullable(payload, valid)
    }

    /**
     * `UnmarshalJSON` (pointer receiver). A decoding error is returned and the
     * receiver is left as it was; `null` clears `Valid` and keeps the payload;
     * a value sets `Valid` and stores the value.
     */
    method UnmarshalJSON(data: Json<T>) returns (err: Option<JsonError>)
      modifies this
      ensures data.JBad? ==> err == Some(data.error) && payload == old(payload) && valid == old(valid)
      ensures data.JNull? ==> err == None && !valid && payload == old(payload)
      ensures data.JVal? ==> err == None && valid && payload == data.value
      ensures Decoded(Value(), err) == old(Value()).Unmarshal(data)
    {
      match data {
        case JBad(e) =>
          return Some(e);
        case JNull =>
          valid := false;
        case JVal(v) =>
          valid := true;
          payload := v;
      }
      return None;
    }
  }

  method NewBool(x: bool) returns (p: NullableRef<bool>)
    ensures fresh(p) && p.Value() == Nullable(x, true)
  {
    p := new NullableRef(x);
  }

  method NewBoolStruct(x: bool) returns (v: GqlBool)
    ensures v == Nullable(x, true)
  {
    var nw := NewBool(x);
    v := nw.Value();
  }

  method NewFloat64(x: Float64) returns (p: NullableRef<Float64>)
    ensures fresh(p) && p.Value() == Nullable(x, true)
  {
    p := new NullableRef(x);
  }

  method NewFloat64Struct(x: Float64) returns (v: GqlFloat64)
    ensures v == Nullable(x, true)
  {
    var nw := NewFloat64(x);
    v := nw.Value();
  }

  method NewInt64(x: int64) returns (p: NullableRef<int64>)
    ensures fresh(p) && p.Value() == Nullable(x, true)
  {
    p := new NullableRef(x);
  }

  method NewInt64Struct(x: int64) returns (v: GqlInt64)
    ensures v == Nullable(x, true)
  {
    var nw := NewInt64(x);
    v := nw.Value();
  }

  method NewString(x: string) returns (p: NullableRef<string>)
    ensures fresh(p) && p.Value() == Nullable(x, true)
  {
    p := new NullableRef(x);
  }

  method NewStringStruct(x: string) returns (v: GqlString)
    ensures v == Nullable(x, true)
  {
    var nw := NewString(x);
    v := nw.Value();
  }

  method NewTime(x: Time) returns (p: NullableRef<Time>)
    ensures fresh(p) && p.Value() == Nullable(x, true)
  {
    p := new NullableRef(x);
  }

  method NewTimeStruct(x: Time) returns (v: GqlTime)
    ensures v == Nullable(x, true)
  {
    var nw := NewTime(x);
    v := nw.Value();
  }

  /** A geographic point: two optional pointers to float wrappers (nil allowed). */
  datatype GqlPoint = GqlPoint(latitude: NullableRef?<Float64>, longitude: NullableRef?<Float64>)

  /**
   * `NewPoint`: both coordinates are fresh, distinct, valid wrappers. The Go
   * function returns a pointer to the point; nothing updates a point in place,
   * so the point itself stands for it.
   */
  method NewPoint(lat: Float64, lng: Float64) returns (p: GqlPoint)
    ensures p.latitude != null && p.longitude != null
    ensures fresh(p.latitude) && fresh(p.longitude) && p.latitude != p.longitude
    ensures p.latitude.Value() == Nullable(lat, true)
    ensures p.longitude.Value() == Nullable(lng, true)
  {
    var latitude := NewFloat64(lat);
    var longitude := NewFloat64(lng);
    p := GqlPoint(latitude, longitude);
  }

  /** `NewPointStruct`: the point `NewPoint` builds, as a value holding the two freshly allocated wrappers. */
  method NewPointStruct(lat: Float64, lng: Float64) returns (p: GqlPoint)
    ensures p.latitude != null && p.longitude != null
    ensures fresh(p.latitude) && fresh(p.longitude) && p.latitude != p.longitude
    ensures p.latitude.Value() == Nullable(lat, true)
    ensures p.longitude.Value() == Nullable(lng, true)
  {
    p := NewPoint(lat, lng);
  }
}
