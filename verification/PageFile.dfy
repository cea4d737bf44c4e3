/** The database file: a sequence of pages, longer by as much as a write past its end needs. */
module PageFile {
  import opened Table
  import opened TreeShape
  import P = TreePages

  /** What a page holds: zeros, the catalog, a page of the index, or a page of values. */
  datatype Content =
    | Blank
    | Meta(keyType: nat, valueType: nat, rootPageId: int, tupleFirstPageId: int)
    | Index(page: P.Page)
    | Value(bytes: Bytes)

  type File = seq<Content>

  function Blanks(n: nat): File {
    seq(n, _ => Blank)
  }

  /** Past the end a read yields zeros. */
  function OnDisk(file: File, id: int): Content {
    if 0 <= id < |file| then file[id] else Blank
  }

  /** A write past the end leaves zeros in between. */
  function WriteAt(file: File, id: int, c: Content): (r: File)
    ensures 0 <= id ==> |r| == if id < |file| then |file| else id + 1
    ensures 0 <= id ==> forall x :: OnDisk(r, x) == if x == id then c else OnDisk(file, x)
  {
    if id < 0 then file
    else if id < |file| then file[id := c] else file + Blanks(id - |file|) + [c]
  }

  /** A page nobody wrote shows zeros. */
  function Of(m: map<int, Content>, id: int): Content {
    if id in m then m[id] else Blank
  }

  /** The pages of a file by number. */
  function PagesOf(file: File): (m: map<int, Content>)
    ensures forall id :: Of(m, id) == OnDisk(file, id)
  {
    map id | 0 <= id < |file| :: file[id]
  }
}
