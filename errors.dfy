/** The exceptions the modelled Python code can raise, as values. */
module Errors {

  datatype Error =
    | EmptyTitle                // ValueError: the title is blank after strip()
    | BadDateFormat             // ValueError from datetime.strptime
    | DateOverflow              // OverflowError: date arithmetic left years 1..9999
    | MissingKey(key: string)   // KeyError: data[key] on a snapshot without that key
    | BadEnumValue(key: string) // ValueError: Priority(v) or Status(v) with an unknown token
    | WrongType(key: string)    // a snapshot value the typed entity cannot hold
    | NoPriorityRank            // KeyError: priority_order[CANCELLED] while sorting
    | ConstraintViolation       // sqlite3.IntegrityError: a CHECK constraint refused the row
}
