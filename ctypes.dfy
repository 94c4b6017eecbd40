/** The parts of Python's ctypes behaviour that the profile structures rely
    on: fixed-width unsigned fields, the 64-bit mask applied when a Python
    int is stored in a c_uint64, and the get/set behaviour of a
    `c_char * N` structure field (a bounded, NUL-terminated byte string). */
module CTypes {
  import opened Wrappers

  const TWO_TO_64: int := 0x1_0000_0000_0000_0000

  newtype uint8 = x: int | 0 <= x < 0x100
  newtype uint64 = x: int | 0 <= x < 0x1_0000_0000_0000_0000

  /** Storing a Python int into a c_uint64 keeps its low 64 bits (ctypes does
      no overflow check); Dafny's Euclidean % gives the same value as the
      two's-complement mask for negative ints too. */
  function ToUint64(x: int): (r: uint64)
    ensures 0 <= x < TWO_TO_64 ==> r as int == x
    ensures (x - r as int) % TWO_TO_64 == 0
  {
    (x % TWO_TO_64) as uint64
  }

  /** The bytes before the first NUL: what C's strlen measures, and what
      reading a `c_char * N` field returns for a buffer of N bytes. */
  function CStr(b: seq<uint8>): (r: seq<uint8>)
    ensures r <= b
    ensures forall i :: 0 <= i < |r| ==> r[i] != 0
    ensures |r| < |b| ==> b[|r|] == 0
  {
    if |b| == 0 || b[0] == 0 then [] else [b[0]] + CStr(b[1..])
  }

  /** A byte string with no NUL in it is its own C string. */
  lemma {:induction false} CStrOfNulFree(v: seq<uint8>, tail: seq<uint8>)
    requires forall i :: 0 <= i < |v| ==> v[i] != 0
    requires tail == [] || tail[0] == 0
    ensures CStr(v + tail) == v
  {
    if |v| > 0 {
      assert (v + tail)[1..] == v[1..] + tail;
      CStrOfNulFree(v[1..], tail);
    } else {
      assert v + tail == tail;
    }
  }

  /** Assigning `value` to a `c_char * |buf|` field whose current bytes are
      `buf`: only the bytes before the first NUL of `value` are copied, a
      ValueError (None) is raised when they do not fit, and a terminating NUL
      is written when there is room for it; the rest of the buffer is kept. */
  function SetCharArray(buf: seq<uint8>, value: seq<uint8>): (r: Option<seq<uint8>>)
    ensures r.Some? <==> |CStr(value)| <= |buf|
    ensures r.Some? ==> |r.value| == |buf| && CStr(r.value) == CStr(value)
    ensures r.Some? && |CStr(value)| < |buf| ==>
              r.value[|CStr(value)|] == 0 && r.value[|CStr(value)| + 1..] == buf[|CStr(value)| + 1..]
  {
    var v := CStr(value);
    if |v| > |buf| then None
    else
      var written := if |v| < |buf| then v + [0] + buf[|v| + 1..] else v;
      assert written == v + written[|v|..];
      CStrOfNulFree(v, written[|v|..]);
      Some(written)
  }

  /** Reading a `c_char * N` field back gives exactly the C string that was
      stored into it, whatever the buffer held before. */
  lemma SetThenGet(buf: seq<uint8>, value: seq<uint8>)
    requires forall i :: 0 <= i < |value| ==> value[i] != 0
    requires |value| <= |buf|
    ensures SetCharArray(buf, value).Some?
    ensures CStr(SetCharArray(buf, value).value) == value
  {
  }
}
