/** Shared value types of the upload form: optional values and outcomes that
    either carry a value or the message of a JavaScript `Error`. */
module Common {

  /** A JavaScript value that may be `null` / `undefined`. */
  datatype Option<+T> = None | Some(value: T)

  /** The outcome of an operation that either returns a value or throws an
      `Error` whose `message` is `error`. */
  datatype Result<+T> = Success(value: T) | Failure(error: string)

  /** A byte of a binary payload (a `Blob` is a sequence of these). */
  newtype Byte = b: int | 0 <= b < 256

  /** A browser `File`: its name, its declared media type and its bytes. */
  datatype File = File(name: string, mimeType: string, content: seq<Byte>)
  {
    /** `File.size`, the number of bytes. */
    function Size(): nat
    {
      |content|
    }
  }

  /** The JavaScript whitespace set shared by the regular-expression class `\s`
      and `String.prototype.trim`: the WhiteSpace and LineTerminator code points. */
  predicate IsSpace(c: char)
  {
    var n := c as int;
    n == 0x09 || n == 0x0A || n == 0x0B || n == 0x0C || n == 0x0D || n == 0x20
    || n == 0xA0 || n == 0x1680 || (0x2000 <= n <= 0x200A) || n == 0x2028 || n == 0x2029
    || n == 0x202F || n == 0x205F || n == 0x3000 || n == 0xFEFF
  }

  /** ASCII letters, the range `[A-Za-z]` of a regular expression. */
  predicate IsAsciiLetter(c: char)
  {
    ('A' <= c <= 'Z') || ('a' <= c <= 'z')
  }

  /** ASCII lower-casing. A case-insensitive (`/i`) JavaScript regular
      expression without the `u` flag folds both sides to upper case and also
      folds non-ASCII letters; for an ASCII pattern such as `mp4|mov` it gives
      the same verdict as comparing ASCII-lower-cased text, because no
      non-ASCII character folds to an ASCII one. */
  function ToLowerAscii(c: char): (r: char)
    ensures IsAsciiLetter(c) ==> 'a' <= r <= 'z'
    ensures 'A' <= c <= 'Z' ==> r as int == c as int + 32
    ensures !('A' <= c <= 'Z') ==> r == c
  {
    if 'A' <= c <= 'Z' then (c as int - 'A' as int + 'a' as int) as char else c
  }
}
