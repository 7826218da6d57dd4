/**
 * GetSelection: read the converted PRIMARY selection back from the
 * window property the owner wrote it to, and accept it only as a string.
 */
module Selection {
  import opened Strings

  /** The X status code for a request that succeeded. */
  const Success: int := 0

  /** The predefined atom None: no type, no property. */
  const NoAtom: int := 0

  /** The predefined atom STRING (XA_STRING). */
  const XA_STRING: int := 31

  /** How much the property read asks for, in 32-bit units. */
  const RequestLength: nat := 200

  /** The most characters one read of eight-bit data returns. */
  const CapBytes: nat := 4 * RequestLength

  /** The property as the selection owner left it on the window. */
  datatype Stored = Missing | Stored(typ: int, bytes: seq<char>)

  /** What XGetWindowProperty hands back: status, actual type, data, and what is left unread. */
  datatype PropertyReply = PropertyReply(status: int, actualType: int, data: seq<char>, bytesAfter: nat)

  /**
   * The answer to the program's read of the property, from offset 0 for
   * 200 units of the type STRING: a missing property has type None; a
   * property of another type returns its type and no data; a string
   * returns at most the first 800 characters and counts the rest.
   */
  function FetchProperty(p: Stored): (r: PropertyReply)
    ensures r.status == Success
    ensures r.actualType == XA_STRING <==> p.Stored? && p.typ == XA_STRING
    ensures r.actualType == XA_STRING && |p.bytes| <= CapBytes ==> r.data == p.bytes && r.bytesAfter == 0
    ensures r.actualType == XA_STRING && |p.bytes| > CapBytes ==>
      |r.data| == CapBytes && r.data == p.bytes[..CapBytes] && r.bytesAfter == |p.bytes| - CapBytes
  {
    match p
    case Missing => PropertyReply(Success, NoAtom, [], 0)
    case Stored(t, b) =>
      if t != XA_STRING then PropertyReply(Success, t, [], |b|)
      else if |b| <= CapBytes then PropertyReply(Success, t, b, 0)
      else PropertyReply(Success, t, b[..CapBytes], |b| - CapBytes)
  }

  /**
   * GetSelection: none unless the read succeeded and the data is a
   * STRING; otherwise the data as a C string, so it stops at the first NUL
   * and is the data itself when there is none.
   */
  function GetSelection(reply: PropertyReply): (r: Option<string>)
    ensures r.None? <==> reply.status != Success || reply.actualType != XA_STRING
    ensures r.Some? ==> NUL !in r.value && |r.value| <= |reply.data| && r.value == reply.data[..|r.value|]
    ensures r.Some? && |r.value| < |reply.data| ==> reply.data[|r.value|] == NUL
    ensures r.Some? && NUL !in reply.data ==> r.value == reply.data
  {
    if reply.status != Success then None
    else if reply.actualType != XA_STRING then None
    else Some(CString(reply.data))
  }

  /**
   * A selection the program accepts holds at most 800 characters of what
   * the owner stored, and stops short of that only at a NUL.
   */
  lemma AcceptedSelectionBounded(p: Stored)
    ensures var r := GetSelection(FetchProperty(p));
      && (r.Some? <==> p.Stored? && p.typ == XA_STRING)
      && (r.Some? ==> |r.value| <= CapBytes && r.value == p.bytes[..|r.value|])
      && (r.Some? && |r.value| < |p.bytes| && |r.value| < CapBytes ==> p.bytes[|r.value|] == NUL)
      && (r.Some? && |p.bytes| <= CapBytes && NUL !in p.bytes ==> r.value == p.bytes)
  {
  }
}
