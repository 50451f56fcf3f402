/** The error every recipe rule raises: a field path, the offending value and a fix hint. */
module ValidationErrors {
  import opened Wrappers
  import opened Strings
  import opened PyRepr

  datatype ValidationError = ValidationError(fieldPath: string, badValue: PyValue, hint: string)

  const MESSAGE_PREFIX: string := "Invalid `"

  /** The text of the raised `ValueError`. */
  function Message(e: ValidationError, numRepr: real -> string): (m: string)
    ensures StartsWith(m, MESSAGE_PREFIX + e.fieldPath + "` value " + Repr(e.badValue, numRepr))
    ensures EndsWith(m, ". " + e.hint)
    ensures |m| == |MESSAGE_PREFIX + e.fieldPath + "` value " + Repr(e.badValue, numRepr)| + |". " + e.hint|
  {
    var head, tail := MESSAGE_PREFIX + e.fieldPath + "` value " + Repr(e.badValue, numRepr), ". " + e.hint;
    ConcatParts(head, tail);
    head + tail
  }

  /** Reads the field path back out of a message. */
  function FieldOfMessage(m: string): Option<string> {
    if StartsWith(m, MESSAGE_PREFIX) then TakeUntil(m[|MESSAGE_PREFIX|..], '`') else None
  }

  /** A field path without backticks can be recovered from the message. */
  lemma MessageNamesField(e: ValidationError, numRepr: real -> string)
    requires '`' !in e.fieldPath
    ensures FieldOfMessage(Message(e, numRepr)) == Some(e.fieldPath)
  {
    var m, named, value := Message(e, numRepr), MESSAGE_PREFIX + e.fieldPath, "` value ";
    ConcatParts(named + value, Repr(e.badValue, numRepr));
    assert StartsWith(value, ['`']) by { assert value[..1] == ['`']; }
    StartsWithAppend(named, value, ['`']);
    StartsWithTransitive(m, named + value + Repr(e.badValue, numRepr), named + value);
    StartsWithTransitive(m, named + value, named + ['`']);
    ReadBackAfter(m, MESSAGE_PREFIX, e.fieldPath, '`');
  }
}
