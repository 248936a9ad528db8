/** Values shared by every part of the model: bytes, optional values and the
    storage engine, which the server reaches only through its public calls. */
module Core {
  newtype byte = x: int | 0 <= x < 256

  datatype Option<+T> = None | Some(value: T) {
    function GetOr(default: T): T {
      if None? then default else value
    }
  }

  /** The bytes of one `.nostdb` file. */
  type Content = seq<byte>

  /** The engine, seen from the server: which files it opens, which of them
      pass its integrity check, and the file that taking over authority leaves
      (or a refusal). */
  datatype Engine = Engine(
    opens: Content -> bool,
    passes: Content -> bool,
    adopt: Content -> Option<Content>)
  {
    /** Opening and checking both succeed. */
    predicate Accepts(c: Content) {
      opens(c) && passes(c)
    }

    /** The file a snapshot becomes once it is validated and adopted. */
    function Prepare(bytes: Content): Option<Content> {
      if bytes != [] && Accepts(bytes) then adopt(bytes) else None
    }
  }
}
