/**
  The storage collaborator, seen only through its two calls: `read` returns
  the current frame, `write` persists a table. Persistence is modelled as a
  log of the tables handed to `write`, oldest first.
 */
module Storage {
  import opened Frame

  datatype Storage = Storage(frame: Table, writes: seq<Table>)

  /** `storage.read('dataframe')`: the frame this step reads. */
  function Read(s: Storage): Table {
    s.frame
  }

  /** `storage.write(t)`: appends `t` to the write log and leaves the frame to read alone. */
  function Write(s: Storage, t: Table): Storage {
    Storage(s.frame, s.writes + [t])
  }
}
