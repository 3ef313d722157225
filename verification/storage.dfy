/**
 * The on-device key-value store (AsyncStorage) and the JSON documents the
 * screens keep in it. A stored value is either a document that `JSON.parse`
 * accepts, represented by its value tree, or text that `JSON.parse` rejects.
 */
module Storage {
  import opened Wrappers

  /** The JSON values the app writes: `undefined` fields are dropped by `JSON.stringify`, so no null. */
  datatype Json =
    | JBool(b: bool)
    | JNum(n: int)
    | JStr(s: string)
    | JArr(elems: seq<Json>)
    | JObj(fields: map<string, Json>)

  /** What one key holds. */
  datatype Stored = Document(doc: Json) | Malformed

  /** Why a read, a parse or a write did not go through; callers only log these. */
  datatype Failure = ReadFailed | WriteFailed | ParseFailed | ShapeMismatch

  /** The result of `getItem(key)`; `fails` stands for a rejected promise. */
  function Read(data: map<string, Stored>, key: string, fails: bool): (r: Result<Option<Stored>, Failure>)
    ensures r.Ok? <==> !fails
    ensures r.Ok? ==> (r.value.Some? <==> key in data)
    ensures r.Ok? && key in data ==> r.value.value == data[key]
  {
    if fails then Err(ReadFailed)
    else if key in data then Ok(Some(data[key]))
    else Ok(None)
  }

  /** `JSON.stringify` of an array, element by element. */
  function EncodeArray<T>(xs: seq<T>, enc: T -> Json): Json {
    JArr(EncodeAll(xs, enc))
  }

  function EncodeAll<T>(xs: seq<T>, enc: T -> Json): seq<Json> {
    if xs == [] then [] else [enc(xs[0])] + EncodeAll(xs[1..], enc)
  }

  /** Reads back an array whose every element `dec` accepts; anything else is of the wrong shape. */
  function DecodeArray<T>(j: Json, dec: Json -> Option<T>): Option<seq<T>> {
    match j
    case JArr(elems) => DecodeAll(elems, dec)
    case _ => None
  }

  function DecodeAll<T>(js: seq<Json>, dec: Json -> Option<T>): Option<seq<T>> {
    if js == [] then Some([])
    else match dec(js[0])
      case None => None
      case Some(x) =>
        match DecodeAll(js[1..], dec)
        case None => None
        case Some(rest) => Some([x] + rest)
  }

  /**
   * `stored ? JSON.parse(stored) : []` applied to the result of a read:
   * an absent key gives the empty list, a failed read or parse gives the failure.
   */
  function LoadArray<T>(read: Result<Option<Stored>, Failure>, dec: Json -> Option<T>): (r: Result<seq<T>, Failure>)
    ensures read == Ok(None) ==> r == Ok([])
    ensures read.Err? ==> r == Err(read.error)
    ensures read == Ok(Some(Malformed)) ==> r == Err(ParseFailed)
  {
    match read
    case Err(f) => Err(f)
    case Ok(None) => Ok([])
    case Ok(Some(Malformed)) => Err(ParseFailed)
    case Ok(Some(Document(j))) =>
      match DecodeArray(j, dec)
      case None => Err(ShapeMismatch)
      case Some(xs) => Ok(xs)
  }

  /** Decoding the encoded elements gives the elements back, when `dec` undoes `enc`. */
  lemma {:induction false} DecodeEncodeAll<T>(xs: seq<T>, enc: T -> Json, dec: Json -> Option<T>)
    requires forall x :: dec(enc(x)) == Some(x)
    ensures DecodeAll(EncodeAll(xs, enc), dec) == Some(xs)
  {
    if xs != [] {
      DecodeEncodeAll(xs[1..], enc, dec);
      assert EncodeAll(xs, enc)[1..] == EncodeAll(xs[1..], enc);
      assert [xs[0]] + xs[1..] == xs;
    }
  }

  /** A list written with `enc` reads back as the same list, field for field, when `dec` undoes `enc`. */
  lemma LoadAfterSave<T>(xs: seq<T>, enc: T -> Json, dec: Json -> Option<T>)
    requires forall x :: dec(enc(x)) == Some(x)
    ensures LoadArray(Ok(Some(Document(EncodeArray(xs, enc)))), dec) == Ok(xs)
  {
    DecodeEncodeAll(xs, enc, dec);
  }

  /** AsyncStorage: one map from keys to stored values, shared by every screen. */
  class Store {
    var data: map<string, Stored>

    constructor (data: map<string, Stored>)
      ensures this.data == data
    {
      this.data := data;
    }

    /** `getItem(key)`. */
    method GetItem(key: string, fails: bool) returns (r: Result<Option<Stored>, Failure>)
      ensures r == Read(data, key, fails)
    {
      r := Read(data, key, fails);
    }

    /** `setItem(key, value)`: overwrites the whole value of `key`, or changes nothing when it fails. */
    method SetItem(key: string, value: Stored, fails: bool) returns (ok: bool)
      modifies this
      ensures ok == !fails
      ensures data == if ok then old(data)[key := value] else old(data)
    {
      ok := !fails;
      if ok {
        data := data[key := value];
      }
    }
  }
}
