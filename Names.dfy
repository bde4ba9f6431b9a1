/** Test and group names as the framework stores them.

    A name reaches the framework as a C string literal produced by stringifying
    the macro argument, so it never contains a NUL character; `strcmp` on two
    such strings returns 0 exactly when they are equal. Records store names in
    a zeroed buffer of CUNIT_NAME_LENGTH_MAX + 1 characters filled by `strncpy`
    with a limit of CUNIT_NAME_LENGTH_MAX, which keeps the first 64 characters.

    One character of a name stands for one C `char`, that is, one byte: a name
    written with multi-byte UTF-8 characters is modelled by its byte sequence, so
    the 64-character bound is the 64-byte bound `strncpy` applies. */
module Names {

  /** CUNIT_NAME_LENGTH_MAX */
  const NameLengthMax: nat := 64

  /** A C string's contents: no embedded NUL terminator. */
  type CString = s: string | '\0' !in s

  /** The name as stored after `strncpy(buf, name, CUNIT_NAME_LENGTH_MAX)` into a
      zeroed buffer one character longer than the limit. */
  function Truncate(name: CString): (stored: CString)
    ensures |stored| <= NameLengthMax
    ensures stored <= name
    ensures |name| <= NameLengthMax ==> stored == name
    ensures |name| > NameLengthMax ==> |stored| == NameLengthMax
  {
    if |name| <= NameLengthMax then name
    else
      assert forall k :: 0 <= k < NameLengthMax ==> name[..NameLengthMax][k] == name[k];
      name[..NameLengthMax]
  }

  /** A stored name equals the name it was copied from only when that name fits. */
  lemma TruncateFixesShortNames(name: CString)
    ensures Truncate(name) == name <==> |name| <= NameLengthMax
  {
  }
}
