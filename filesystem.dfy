/**
 * The operating-system services the duplicate finder calls, as oracles, and
 * the read-and-digest loop that both variants run over an open file.
 *
 * `os.Stat`, `os.Open`, `(*os.File).Read` and `(*os.File).Stat` are not run:
 * an `Env` says what each of them returns for a path. MD5 is an
 * uninterpreted function from a file's bytes to its hex digest; the running
 * `hash.Hash` accumulator is represented by the bytes written to it so far.
 */
module FileSystem {
  import opened Results

  type Path = string

  newtype byte = x: int | 0 <= x < 256

  /** What a stat reports: `ModTime().Unix()` and `Size()`. */
  datatype FileInfo = FileInfo(mtime: int, size: nat)

  /** The non-nil errors `(*os.File).Read` returns: end of file, or any other failure. */
  datatype ReadError = EOF | ReadFailure(msg: string)

  /** One call of `(*os.File).Read(buf)`: the bytes it placed in `buf` and the error it returned. */
  datatype ReadCall = ReadCall(data: seq<byte>, err: Option<ReadError>)

  /**
   * An open file: the results of its successive `Read` calls and what `Stat`
   * on the open file returns. Every `Read` after the last listed one returns `io.EOF`.
   */
  datatype Handle = Handle(calls: seq<ReadCall>, stat: Result<FileInfo>)

  /** The environment: `os.Stat`, `os.Open` and the MD5 hex digest of a byte string. */
  datatype Env = Env(
    stat: Path -> Result<FileInfo>,
    open: Path -> Result<Handle>,
    md5: seq<byte> -> string)

  /** The result of the `i`-th `Read` call on a file. */
  function ReadAt(calls: seq<ReadCall>, i: nat): ReadCall
  {
    if i < |calls| then calls[i] else ReadCall([], Some(EOF))
  }

  /** Puts `b` in front of the bytes of a successful read; leaves an error as it is. */
  function Prefixed(b: seq<byte>, r: Result<seq<byte>>): Result<seq<byte>>
  {
    match r
    case Ok(rest) => Ok(b + rest)
    case Err(m) => Err(m)
  }

  /**
   * What a loop that reads until `io.EOF` and gives up on any other error
   * obtains from a file: the bytes of every read before the first EOF, or
   * the first non-EOF error.
   */
  function ReadToEOF(calls: seq<ReadCall>): Result<seq<byte>>
  {
    if calls == [] then Ok([])
    else
      match calls[0].err
      case Some(EOF) => Ok([])
      case Some(ReadFailure(m)) => Err(m)
      case None => Prefixed(calls[0].data, ReadToEOF(calls[1..]))
  }

  /** The number of calls that deliver data before the first one that reports an error (EOF included). */
  function CleanReads(calls: seq<ReadCall>): (k: nat)
    ensures k <= |calls|
    ensures forall j :: 0 <= j < k ==> calls[j].err == None
    ensures k < |calls| ==> calls[k].err != None
  {
    if calls == [] || calls[0].err != None then 0 else 1 + CleanReads(calls[1..])
  }

  /** All the bytes a sequence of calls delivers, in order. */
  function Bytes(calls: seq<ReadCall>): seq<byte>
  {
    if calls == [] then [] else calls[0].data + Bytes(calls[1..])
  }

  /**
   * The read loop's outcome, stated without recursion: it succeeds exactly
   * when the first read that reports an error reports EOF (or there is
   * none), and then yields every byte delivered before it; otherwise it
   * fails with that first error and yields no bytes at all.
   */
  lemma {:induction false} ReadToEOFCharacterized(calls: seq<ReadCall>)
    ensures var k := CleanReads(calls);
            ReadToEOF(calls) ==
              if k == |calls| || calls[k].err == Some(EOF) then Ok(Bytes(calls[..k]))
              else Err(calls[k].err.value.msg)
  {
    if calls != [] && calls[0].err == None {
      var k := CleanReads(calls);
      ReadToEOFCharacterized(calls[1..]);
      assert calls[..k] == [calls[0]] + calls[1..][..k - 1];
      assert Bytes(calls[..k]) == calls[0].data + Bytes(calls[1..][..k - 1]);
    }
  }

  /**
   * The chunk loop of `getMD5` (and of the shared-map `generateFileDesc`):
   * reads until EOF, writing every chunk to the running digest, and returns
   * the digest of everything read; on any other read error it returns `""`
   * and the error, never a partial digest.
   */
  method HashStream(calls: seq<ReadCall>, md5: seq<byte> -> string) returns (hash: string, err: Option<string>)
    ensures ReadToEOF(calls).Ok? ==> err == None && hash == md5(ReadToEOF(calls).value)
    ensures ReadToEOF(calls).Err? ==> err == Some(ReadToEOF(calls).msg) && hash == ""
  {
    var written: seq<byte> := [];
    var i := 0;
    assert calls[i..] == calls;
    assert forall rest: seq<byte> :: written + rest == rest;
    while true
      invariant i <= |calls|
      invariant ReadToEOF(calls) == Prefixed(written, ReadToEOF(calls[i..]))
      decreases |calls| - i
    {
      var call := ReadAt(calls, i);
      if call.err.Some? {
        if call.err.value == EOF {
          break;
        }
        return "", Some(call.err.value.msg);
      }
      assert calls[i..][1..] == calls[i + 1..];
      assert forall rest :: written + (call.data + rest) == (written + call.data) + rest;
      written := written + call.data;
      i := i + 1;
    }
    assert written + [] == written;
    hash, err := md5(written), None;
  }

  /** The bytes of the file at `path` as a read-to-EOF loop obtains them, or the open or read error. */
  function ReadFile(env: Env, path: Path): Result<seq<byte>>
  {
    match env.open(path)
    case Err(m) => Err(m)
    case Ok(file) => ReadToEOF(file.calls)
  }
}
