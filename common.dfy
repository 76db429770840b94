/** Values shared by every part of the model: the exceptions the Python code
    raises, a result type that carries them, an insertion-ordered counting
    dictionary, and the file system the code reads from. */
module Common {

  datatype Option<T> = None | Some(value: T)

  /** The Python exceptions the modelled code can raise. */
  datatype Error =
    | ValueError(message: string)
    | ZeroDivisionError
    | IndexError
    | AttributeError
    | TypeError
    | UnboundLocalError
    | FileNotFoundError(path: string)

  datatype Result<T> = Ok(value: T) | Err(error: Error) {
    predicate IsFailure() { Err? }

    function PropagateFailure<U>(): Result<U>
      requires Err?
    {
      Err(error)
    }

    function Extract(): T
      requires Ok?
    {
      value
    }
  }

  /** A Python `dict` from strings to counts: `order` lists the keys in
      insertion order, `count` holds the values. */
  datatype Counts = Counts(order: seq<string>, count: map<string, nat>)

  predicate NoDuplicates<T(==)>(s: seq<T>) {
    forall i, j :: 0 <= i < j < |s| ==> s[i] != s[j]
  }

  /** A well-formed dictionary: every key once, in the key order. */
  predicate ValidCounts(d: Counts) {
    NoDuplicates(d.order)
    && (forall k :: k in d.order ==> k in d.count)
    && (forall k :: k in d.count ==> k in d.order)
  }

  /** One file: the size `os.path.getsize` reports and the lines
      `readline` returns, each with its line terminator. Each line of a
      real file is one `readline` result: non-empty, with no '\n' before
      its end, and only the last may lack the final '\n'. The type does not
      enforce this, and no lemma here depends on it; an empty line in the
      middle, which `readline` never yields, is processed like any other
      rather than ending a `while line:` loop. */
  datatype FileEntry = FileEntry(size: nat, lines: seq<string>)

  /** The files that exist, by path. */
  type FileSystem = map<string, FileEntry>

  /** Reading a file: a path that does not exist raises FileNotFoundError. */
  function ReadLines(fs: FileSystem, path: string): (r: Result<seq<string>>)
    ensures r.Ok? <==> path in fs
    ensures r.Ok? ==> r.value == fs[path].lines
    ensures r.Err? ==> r.error == FileNotFoundError(path)
  {
    if path in fs then Ok(fs[path].lines) else Err(FileNotFoundError(path))
  }

  lemma AppendAssoc<T>(x: seq<T>, y: seq<T>, z: seq<T>)
    ensures (x + y) + z == x + (y + z)
  {
  }

  /** One more element of a prefix. */
  lemma PrefixSnoc<T>(s: seq<T>, k: nat)
    requires k < |s|
    ensures s[..k + 1] == s[..k] + [s[k]]
  {
  }

  /** The parts of a sequence with one element appended. */
  lemma SnocParts<T>(a: seq<T>, x: T)
    ensures (a + [x])[..|a|] == a && (a + [x])[|a|] == x
  {
  }

  /** One more element of a slice. */
  lemma SliceSnoc<T>(s: seq<T>, a: nat, b: nat)
    requires a <= b < |s|
    ensures s[a..b + 1] == s[a..b] + [s[b]]
  {
  }

  /** A slice without its first element. */
  lemma SliceTail<T>(s: seq<T>, a: nat, b: nat)
    requires a < b <= |s|
    ensures s[a..b][1..] == s[a + 1..b]
  {
  }

  /** A non-empty sequence is its front with its last element appended. */
  lemma FrontLast<T>(s: seq<T>)
    requires s != []
    ensures s == s[..|s| - 1] + [s[|s| - 1]]
  {
  }

  /** A slice inside a prefix is the same slice of the whole. */
  lemma SliceOfPrefix<T>(a: seq<T>, x: T, lo: nat, hi: nat)
    requires lo <= hi <= |a|
    ensures a[lo..hi] == (a + [x])[lo..hi]
  {
  }
}
