/** What the route handlers send back, and the error texts the MySQL driver
    raises that the handlers pass on or inspect. */
module Server {

  /** An HTTP reply: its status code and the `message` or `error` text of
      its JSON body. */
  datatype Reply = Reply(code: nat, text: string)

  /** The driver's error for a statement whose parameter list holds an
      `undefined` value. */
  const UndefinedBindMessage: string :=
    "Bind parameters must not contain undefined. To pass SQL NULL specify JS null"

  /** The text of MySQL error 1062 (`ER_DUP_ENTRY`) for a value that is
      already present under the unique key `table.column`. */
  function DuplicateEntryMessage(value: string, table: string, column: string): string
  {
    "Duplicate entry '" + value + "' for key '" + table + "." + column + "'"
  }
}
