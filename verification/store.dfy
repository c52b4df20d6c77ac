/** The pieces of the gemBS task store shared by every stage: the small-integer
    work-unit status, the derived file names that guard an output, and the side
    table of compensation records that undo an interrupted claim. */
module Store {

  datatype Option<T> = None | Some(value: T)

  type Path = string

  /** Status of a row of the mapping and calling tables. The integers stored
      on disk are 0 = Pending, 1 = Done, 2 = Retired (an input removed after
      its merge), 3 = Claimed. */
  datatype Status = Pending | Done | Retired | Claimed

  function Code(s: Status): (c: int)
    ensures 0 <= c <= 3
    ensures c == 0 <==> s == Pending
  {
    match s
    case Pending => 0
    case Done => 1
    case Retired => 2
    case Claimed => 3
  }

  /** Reads a stored integer back as a status; integers the scheduler never
      writes have no status. */
  function FromCode(c: int): (r: Option<Status>)
    ensures r.Some? <==> 0 <= c <= 3
    ensures r.Some? ==> Code(r.value) == c
  {
    if c == 0 then Some(Pending)
    else if c == 1 then Some(Done)
    else if c == 2 then Some(Retired)
    else if c == 3 then Some(Claimed)
    else None
  }

  /** The on-disk code identifies the status: decoding an encoded status gives it back. */
  lemma CodeRoundTrip(s: Status)
    ensures FromCode(Code(s)) == Some(s)
  {
  }

  datatype TableName = MappingTable | CallingTable | ExtractTable

  /** A file an operation may leave behind. `Sibling(p, n)` is the file named
      `n` in the directory holding `p`. */
  datatype FileRef = Artifact(path: Path) | Sibling(of: Path, name: string)

  /** The undo statement of a compensation record: set the status column of
      the row `path` of `table` back to `status`. */
  datatype Undo = ResetStatus(table: TableName, path: Path, status: int)

  datatype CompRecord = CompRecord(undo: Undo, guards: seq<FileRef>)

  /** Compensation records keyed by the output they protect. */
  type Registry = map<Path, CompRecord>

  /** Registering a record for `key` replaces any earlier one and touches no other key. */
  function Register(reg: Registry, key: Path, rec: CompRecord): (r: Registry)
    ensures key in r && r[key] == rec
    ensures r.Keys == reg.Keys + {key}
    ensures forall k :: k in reg && k != key ==> r[k] == reg[k]
  {
    reg[key := rec]
  }

  /** Deleting the record of `key`; other records are kept. */
  function Forget(reg: Registry, key: Path): (r: Registry)
    ensures key !in r
    ensures r.Keys == reg.Keys - {key}
    ensures forall k :: k in r ==> r[k] == reg[k]
  {
    reg - {key}
  }

  /** A claim episode that registers and then deletes a record leaves no trace
      of that record: the registry is as if `key` had never had one. */
  lemma ForgetUndoesRegister(reg: Registry, key: Path, rec: CompRecord)
    ensures Forget(Register(reg, key, rec), key) == Forget(reg, key)
    ensures key !in reg ==> Forget(Register(reg, key, rec), key) == reg
  {
  }
}
