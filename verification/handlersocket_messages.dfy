/** The messages of `HandlerSocketError::throwNormalError`, apart from the switch
    that chooses among them. */
module HandlerSocketMessages {
  /** The messages of the switch. Long ones are written as concatenations of shorter
      literals, which the verifier can inspect character by character. */
  const ParsingMessage: string := "Problems with parsing command"
  const AuthMessage: string := "You need to authenticate " + "before execute commands"
  const OpenTableMessage: string := "Something goes wrong " + "or wrong DB/table name"
  const IndexNumberMessage: string := "You try to use un " + "initialized index number"
  const InValuesMessage: string := "Wrong IN values list size"
  const FilterTypeMessage: string := "Wrong filter TYPE"
  const FilterFieldMessage: string := "You filter column size < filter offset"
  const LockedMessage: string := "You try to open locked table"
  const KeyIndexMessage: string := "Key index > opened columns count"
  const KeyLengthMessage: string := "Key length > key values " + "or key length <= 0"
  const OperatorMessage: string := "Unknown comparison operator, " + "you can use only " + "'>', '<', '>=', '<='."
  const ReadOnlyMessage: string := "You try to execute modify " + "command on read only socket"
  const FieldMessage: string := "Something goes wrong on " + "parse column or filter column"

  /** The message of the default branch for a numeric code: MySQL's own errors. */
  const WrongDataMessage: string :=
    "If you try to insert data " + "with wrong values, " + "wrong keys (internal MySQL errors)"

  /** The message of the default branch for anything else. */
  const UnknownMessage: string := "Unknown error"

  /** No message contains a closing bracket. */
  lemma MessageConstantsHaveNoBracket()
    ensures ']' !in ParsingMessage
    ensures ']' !in AuthMessage
    ensures ']' !in OpenTableMessage
    ensures ']' !in IndexNumberMessage
    ensures ']' !in InValuesMessage
    ensures ']' !in FilterTypeMessage
    ensures ']' !in FilterFieldMessage
    ensures ']' !in LockedMessage
    ensures ']' !in KeyIndexMessage
    ensures ']' !in KeyLengthMessage
    ensures ']' !in OperatorMessage
    ensures ']' !in ReadOnlyMessage
    ensures ']' !in FieldMessage
    ensures ']' !in WrongDataMessage
    ensures ']' !in UnknownMessage
  {
    NoBracket0();
    NoBracket1();
    NoBracket2();
    NoBracket3();
    NoBracket4();
    NoBracket5();
    NoBracket6();
    NoBracket7();
    NoBracket8();
  }

  // The constants are checked one or two at a time, which keeps each proof small.

  lemma NoBracket0()
    ensures ']' !in ParsingMessage && ']' !in AuthMessage
  {
  }

  lemma NoBracket1()
    ensures ']' !in OpenTableMessage && ']' !in InValuesMessage
  {
  }

  lemma NoBracket2()
    ensures ']' !in IndexNumberMessage && ']' !in FilterTypeMessage
  {
  }

  lemma NoBracket3()
    ensures ']' !in FilterFieldMessage && ']' !in LockedMessage
  {
  }

  lemma NoBracket4()
    ensures ']' !in KeyIndexMessage && ']' !in KeyLengthMessage
  {
  }

  lemma NoBracket5()
    ensures ']' !in OperatorMessage
  {
  }

  lemma NoBracket6()
    ensures ']' !in ReadOnlyMessage
  {
  }

  lemma NoBracket7()
    ensures ']' !in FieldMessage && ']' !in UnknownMessage
  {
  }

  lemma NoBracket8()
    ensures ']' !in WrongDataMessage
  {
  }
}
