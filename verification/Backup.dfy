/** The encrypted backup format: magic, nonce, ciphertext, tag, written and read back in chunks
    through a temporary file that replaces the target only at the end. */
module Backup {
  import opened Records

  type Byte = bv8
  type Bytes = seq<Byte>
  type Path = string

  const MAGIC: Bytes := [
    0x4F, 0x42, 0x45, 0x4C, 0x49, 0x53, 0x4B, 0x2D, 0x42, 0x41, 0x43, 0x4B, 0x55, 0x50,
    0x2D, 0x41, 0x45, 0x53, 0x32, 0x35, 0x36, 0x47, 0x43, 0x4D, 0x2D, 0x56, 0x31, 0x00]
  const NONCE_BYTES: nat := 12
  const TAG_BYTES: nat := 16
  const CHUNK_BYTES: nat := 1024 * 1024

  /** AES-256-GCM as sections 7.1 and 7.2 of NIST SP 800-38D describe it from outside: a keystream
      that is xored onto the data and a tag over the ciphertext. */
  datatype Gcm = Gcm(keystream: (Bytes, Bytes, nat) -> Byte, tag: (Bytes, Bytes, Bytes) -> Bytes)

  ghost predicate IsGcm(g: Gcm) {
    forall key: Bytes, nonce: Bytes, data: Bytes :: |g.tag(key, nonce, data)| == TAG_BYTES
  }

  /** What `update` returns for the data that starts at the given offset of the stream. */
  function Xor(g: Gcm, key: Bytes, nonce: Bytes, offset: nat, data: Bytes): (r: Bytes)
    ensures |r| == |data|
  {
    seq(|data|, i requires 0 <= i < |data| => data[i] ^ g.keystream(key, nonce, offset + i))
  }

  /** The artifact for a plaintext. */
  function Sealed(g: Gcm, key: Bytes, nonce: Bytes, plain: Bytes): Bytes {
    var cipher := Xor(g, key, nonce, 0, plain);
    MAGIC + nonce + cipher + g.tag(key, nonce, cipher)
  }

  datatype Problem = Truncated | WrongFormat | BadTag | WriteFailed

  const MINIMUM: nat := |MAGIC| + NONCE_BYTES + TAG_BYTES

  function NonceOf(file: Bytes): Bytes
    requires |file| >= MINIMUM
  {
    file[|MAGIC|..|MAGIC| + NONCE_BYTES]
  }

  function TagOf(file: Bytes): Bytes
    requires |file| >= MINIMUM
  {
    file[|file| - TAG_BYTES..]
  }

  function CipherOf(file: Bytes): Bytes
    requires |file| >= MINIMUM
  {
    file[|MAGIC| + NONCE_BYTES..|file| - TAG_BYTES]
  }

  /** What reading an unchanged artifact back must yield. */
  function Opened(g: Gcm, key: Bytes, file: Bytes): (Option<Bytes>, Option<Problem>) {
    if |file| < MINIMUM then (None, Some(Truncated))
    else if file[..|MAGIC|] != MAGIC then (None, Some(WrongFormat))
    else if g.tag(key, NonceOf(file), CipherOf(file)) != TagOf(file) then (None, Some(BadTag))
    else (Some(Xor(g, key, NonceOf(file), 0, CipherOf(file))), None)
  }

  // ---------------------------------------------------------------- the stream

  /** Chunk by chunk or at once, the stream is the same. */
  lemma XorConcat(g: Gcm, key: Bytes, nonce: Bytes, offset: nat, a: Bytes, b: Bytes)
    ensures Xor(g, key, nonce, offset, a + b) ==
            Xor(g, key, nonce, offset, a) + Xor(g, key, nonce, offset + |a|, b)
  {}

  lemma XorTwice(x: Byte, k: Byte)
    ensures (x ^ k) ^ k == x
  {}

  lemma XorUndoes(g: Gcm, key: Bytes, nonce: Bytes, offset: nat, data: Bytes)
    ensures Xor(g, key, nonce, offset, Xor(g, key, nonce, offset, data)) == data
  {
    forall i | 0 <= i < |data|
      ensures Xor(g, key, nonce, offset, Xor(g, key, nonce, offset, data))[i] == data[i]
    {
      XorTwice(data[i], g.keystream(key, nonce, offset + i));
    }
  }

  lemma SealedParts(g: Gcm, key: Bytes, nonce: Bytes, plain: Bytes)
    requires IsGcm(g) && |nonce| == NONCE_BYTES
    ensures var file := Sealed(g, key, nonce, plain);
            |file| == MINIMUM + |plain| && file[..|MAGIC|] == MAGIC && NonceOf(file) == nonce
            && CipherOf(file) == Xor(g, key, nonce, 0, plain)
            && TagOf(file) == g.tag(key, nonce, CipherOf(file))
  {
    var cipher := Xor(g, key, nonce, 0, plain);
    var tag := g.tag(key, nonce, cipher);
    var file := Sealed(g, key, nonce, plain);
    assert |tag| == TAG_BYTES;
    assert file[|MAGIC|..|MAGIC| + NONCE_BYTES] == nonce;
    assert file[|MAGIC| + NONCE_BYTES..|file| - TAG_BYTES] == cipher;
    assert file[|file| - TAG_BYTES..] == tag;
  }

  /** The artifact, byte by byte: the 28 characters of the format name with its final zero, the
      nonce, each plaintext byte xored with the keystream byte of its offset, and the tag over
      the ciphertext. */
  lemma SealedBytes(g: Gcm, key: Bytes, nonce: Bytes, plain: Bytes)
    requires IsGcm(g) && |nonce| == 12
    ensures var file := Sealed(g, key, nonce, plain);
            |file| == 56 + |plain| && file[..28] == MAGIC && file[28..40] == nonce
            && (forall i :: 0 <= i < |plain| ==> file[40 + i] == plain[i] ^ g.keystream(key, nonce, i))
            && file[40 + |plain|..] == g.tag(key, nonce, file[40..40 + |plain|])
  {
    var cipher := Xor(g, key, nonce, 0, plain);
    SealedParts(g, key, nonce, plain);
    assert Sealed(g, key, nonce, plain)[40..40 + |plain|] == cipher;
  }

  /** What reading back reports: too short, another format, or a tag that does not fit, in that
      order of precedence, and otherwise the bytes with the keystream taken off. */
  lemma OpenedInBytes(g: Gcm, key: Bytes, file: Bytes)
    ensures |file| < 56 ==> Opened(g, key, file) == (None, Some(Truncated))
    ensures |file| >= 56 && file[..28] != MAGIC ==> Opened(g, key, file) == (None, Some(WrongFormat))
    ensures |file| >= 56 && file[..28] == MAGIC
            && g.tag(key, file[28..40], file[40..|file| - 16]) != file[|file| - 16..] ==>
              Opened(g, key, file) == (None, Some(BadTag))
    ensures |file| >= 56 && file[..28] == MAGIC
            && g.tag(key, file[28..40], file[40..|file| - 16]) == file[|file| - 16..] ==>
              Opened(g, key, file).1.None? && Opened(g, key, file).0.Some?
              && |Opened(g, key, file).0.value| == |file| - 56
              && forall i :: 0 <= i < |file| - 56 ==>
                   Opened(g, key, file).0.value[i] == file[40 + i] ^ g.keystream(key, file[28..40], i)
  {}

  /** Opening what was sealed under the same key gives the plaintext back, for every length. */
  lemma OpenUndoesSeal(g: Gcm, key: Bytes, nonce: Bytes, plain: Bytes)
    requires IsGcm(g) && |nonce| == NONCE_BYTES
    ensures Opened(g, key, Sealed(g, key, nonce, plain)) == (Some(plain), None)
  {
    SealedParts(g, key, nonce, plain);
    XorUndoes(g, key, nonce, 0, plain);
  }

  /** Only sealed artifacts open: whatever opens under a key is what sealing its plaintext under
      that key and the artifact's nonce produces. */
  lemma OnlySealedOpens(g: Gcm, key: Bytes, file: Bytes)
    requires Opened(g, key, file).0.Some?
    ensures file == Sealed(g, key, NonceOf(file), Opened(g, key, file).0.value)
  {
    var nonce, cipher := NonceOf(file), CipherOf(file);
    XorUndoes(g, key, nonce, 0, cipher);
    assert file == file[..|MAGIC|] + nonce + cipher + TagOf(file);
  }

  // ---------------------------------------------------------------- files

  /** Everything the disk may refuse once the temporary file exists; chunks are counted. */
  datatype Act = Magic | Nonce | Chunk(turn: nat) | Trailer | Sync | Rename

  /** What the disk refuses, and how many bytes each read returns at most. */
  datatype Disk = Disk(refuses: Act -> bool, granted: nat -> nat)

  class FileSystem {
    var files: map<Path, Bytes>

    constructor (initial: map<Path, Bytes>)
      ensures files == initial
    {
      files := initial;
    }

    method Unlink(path: Path)
      modifies this
      ensures files == old(files) - {path}
    {
      files := files - {path};
    }

    /** `os.replace`: the temporary takes the target's place in one step. */
    method Replace(temporary: Path, target: Path, refused: bool) returns (ok: bool)
      requires temporary in files && temporary != target
      modifies this
      ensures ok == !refused
      ensures files == if ok then old(files)[target := old(files)[temporary]] - {temporary}
                       else old(files)
    {
      if refused { return false; }
      files := files[target := files[temporary]] - {temporary};
      return true;
    }

    method Write(path: Path, data: Bytes, refused: bool) returns (ok: bool)
      requires path in files
      modifies this
      ensures ok == !refused
      ensures files == if ok then old(files)[path := old(files)[path] + data] else old(files)
    {
      if refused { return false; }
      files := files[path := files[path] + data];
      return true;
    }
  }

  /** One `read(limit)`: between one byte and the limit while any are left, none at the end. */
  function ReadSize(disk: Disk, turn: nat, limit: nat, left: nat): (n: nat)
    ensures n <= limit && n <= left
    ensures limit > 0 && left > 0 ==> n > 0
  {
    var most := if limit <= left then limit else left;
    if disk.granted(turn) == 0 then (if most > 0 then 1 else 0)
    else if disk.granted(turn) < most then disk.granted(turn) else most
  }

  /** The encryption loop: appends the ciphertext of the whole source to the open temporary. */
  method EncryptChunks(fs: FileSystem, g: Gcm, key: Bytes, nonce: Bytes, plain: Bytes,
                       temporary: Path, disk: Disk)
    returns (ok: bool, bytesIn: nat, cipher: Bytes)
    requires temporary in fs.files
    modifies fs
    ensures ok ==> bytesIn == |plain| && cipher == Xor(g, key, nonce, 0, plain)
                   && fs.files == old(fs.files)[temporary := old(fs.files)[temporary] + cipher]
    ensures temporary in fs.files && fs.files - {temporary} == old(fs.files) - {temporary}
    ensures !ok ==> exists act :: disk.refuses(act)
  {
    ok, bytesIn, cipher := true, 0, [];
    var turn: nat := 0;
    ghost var head := fs.files[temporary];
    assert head + cipher == head;
    while true
      invariant bytesIn <= |plain| && cipher == Xor(g, key, nonce, 0, plain[..bytesIn])
      invariant fs.files == old(fs.files)[temporary := head + cipher]
      decreases |plain| - bytesIn
    {
      var n := ReadSize(disk, turn, CHUNK_BYTES, |plain| - bytesIn);
      if n == 0 { break; }
      var chunk := plain[bytesIn..bytesIn + n];
      XorConcat(g, key, nonce, 0, plain[..bytesIn], chunk);
      assert plain[..bytesIn + n] == plain[..bytesIn] + chunk;
      var out := Xor(g, key, nonce, bytesIn, chunk);
      bytesIn := bytesIn + n;
      ok := fs.Write(temporary, out, disk.refuses(Chunk(turn)));
      if !ok { return; }
      assert (head + cipher) + out == head + (cipher + out);
      cipher := cipher + out;
      turn := turn + 1;
    }
    assert plain[..bytesIn] == plain;
  }

  lemma SealedConcat(g: Gcm, key: Bytes, nonce: Bytes, plain: Bytes, cipher: Bytes)
    requires cipher == Xor(g, key, nonce, 0, plain)
    ensures ((([] + MAGIC) + nonce) + cipher) + g.tag(key, nonce, cipher)
            == Sealed(g, key, nonce, plain)
  {
    assert [] + MAGIC == MAGIC;
  }

  /** The open temporary file takes its header, the ciphertext and the tag, unless the disk
      refuses one of them. */
  method WriteArtifact(fs: FileSystem, g: Gcm, key: Bytes, nonce: Bytes, plain: Bytes,
                       temporary: Path, disk: Disk)
    returns (ok: bool, bytesIn: nat)
    requires temporary in fs.files && fs.files[temporary] == []
    modifies fs
    ensures ok ==> bytesIn == |plain|
                   && fs.files == old(fs.files)[temporary := Sealed(g, key, nonce, plain)]
    ensures temporary in fs.files && fs.files - {temporary} == old(fs.files) - {temporary}
    ensures !ok ==> exists act :: disk.refuses(act)
  {
    bytesIn := 0;
    ok := fs.Write(temporary, MAGIC, disk.refuses(Magic));
    if !ok { return; }
    ok := fs.Write(temporary, nonce, disk.refuses(Nonce));
    if !ok { return; }
    var cipher;
    ok, bytesIn, cipher := EncryptChunks(fs, g, key, nonce, plain, temporary, disk);
    if !ok { return; }
    SealedConcat(g, key, nonce, plain, cipher);
    ok := fs.Write(temporary, g.tag(key, nonce, cipher), disk.refuses(Trailer));
    if ok && disk.refuses(Sync) { ok := false; }
  }

  /** `encrypt_file`. The target becomes the sealed artifact, or, if the disk refuses any write or
      the final replacement, every file is as it was. */
  method EncryptFile(fs: FileSystem, source: Path, target: Path, temporary: Path, g: Gcm, key: Bytes,
                     nonce: Bytes, disk: Disk)
    returns (ok: bool, bytesIn: nat)
    requires IsGcm(g) && |nonce| == NONCE_BYTES
    requires source in fs.files && temporary !in fs.files && temporary != target
    modifies fs
    ensures ok ==> bytesIn == |old(fs.files)[source]|
                   && fs.files == old(fs.files)[target := Sealed(g, key, nonce, old(fs.files)[source])]
    ensures !ok ==> fs.files == old(fs.files)
    ensures (forall act :: !disk.refuses(act)) ==> ok
  {
    var plain := fs.files[source];
    fs.files := fs.files[temporary := []];
    ok, bytesIn := WriteArtifact(fs, g, key, nonce, plain, temporary, disk);
    if ok { ok := fs.Replace(temporary, target, disk.refuses(Rename)); }
    if !ok {
      fs.Unlink(temporary);
      assert fs.files == old(fs.files);
    }
  }

  /** The decryption loop over the second open of the source. It stops exactly at the tag; it
      runs dry only if that file is shorter than the size first measured. */
  method DecryptChunks(fs: FileSystem, g: Gcm, key: Bytes, nonce: Bytes, again: Bytes, start: nat,
                       size: nat, temporary: Path, disk: Disk)
    returns (problem: Option<Problem>, cipher: Bytes)
    requires temporary in fs.files && fs.files[temporary] == []
    modifies fs
    ensures temporary in fs.files && fs.files - {temporary} == old(fs.files) - {temporary}
    ensures problem.None? ==>
              |cipher| == size && (size > 0 ==> start + size <= |again|)
              && (start + size <= |again| ==> cipher == again[start..start + size])
              && fs.files[temporary] == Xor(g, key, nonce, 0, cipher)
    ensures problem == Some(Truncated) ==> |again| < start + size
    ensures problem.Some? ==> problem.value == Truncated || problem.value == WriteFailed
    ensures (forall act :: !disk.refuses(act)) && |again| >= start + size ==> problem.None?
  {
    problem, cipher := None, [];
    var remaining: nat, turn: nat := size, 0;
    assert fs.files == old(fs.files)[temporary := Xor(g, key, nonce, 0, cipher)];
    while remaining != 0
      invariant remaining <= size && |cipher| == size - remaining
      invariant start + |cipher| <= |again| || cipher == []
      invariant cipher == if start <= |again| then again[start..start + |cipher|] else []
      invariant fs.files == old(fs.files)[temporary := Xor(g, key, nonce, 0, cipher)]
      decreases remaining
    {
      var limit: nat := if CHUNK_BYTES < remaining then CHUNK_BYTES else remaining;
      var position: nat := start + |cipher|;
      var left: nat := if position <= |again| then |again| - position else 0;
      var n := ReadSize(disk, turn, limit, left);
      if n == 0 { return Some(Truncated), cipher; }
      var chunk := again[position..position + n];
      XorConcat(g, key, nonce, 0, cipher, chunk);
      remaining := remaining - n;
      var ok := fs.Write(temporary, Xor(g, key, nonce, |cipher|, chunk), disk.refuses(Chunk(turn)));
      if !ok { return Some(WriteFailed), cipher; }
      cipher := cipher + chunk;
      turn := turn + 1;
      assert fs.files == old(fs.files)[temporary := Xor(g, key, nonce, 0, cipher)];
    }
  }

  /** `decrypt_file`. `again` is the source at its second opening. On any failure every file is as
      it was; the target is replaced only by data whose tag was checked, and for a source that did
      not change in between the outcome is the specified one. */
  method DecryptFile(fs: FileSystem, source: Path, target: Path, temporary: Path, g: Gcm, key: Bytes,
                     again: Bytes, disk: Disk)
    returns (problem: Option<Problem>)
    requires source in fs.files && temporary !in fs.files && temporary != target
    modifies fs
    ensures problem.Some? ==> fs.files == old(fs.files)
    ensures problem.None? ==>
              target in fs.files && fs.files == old(fs.files)[target := fs.files[target]]
    ensures again == old(fs.files)[source] ==>
              match Opened(g, key, again)
              case (Some(plain), _) =>
                (problem.None? && fs.files[target] == plain) || problem == Some(WriteFailed)
              case (None, why) => problem == why || problem == Some(WriteFailed)
    ensures again == old(fs.files)[source] && (forall act :: !disk.refuses(act)) ==>
              problem == Opened(g, key, again).1
    ensures problem.None? ==>
              |old(fs.files)[source]| >= MINIMUM &&
              exists cipher: Bytes ::
                fs.files[target] == Xor(g, key, NonceOf(old(fs.files)[source]), 0, cipher)
                && g.tag(key, NonceOf(old(fs.files)[source]), cipher) == TagOf(old(fs.files)[source])
  {
    var file := fs.files[source];
    if |file| < MINIMUM { return Some(Truncated); }
    if file[..|MAGIC|] != MAGIC { return Some(WrongFormat); }
    var nonce, tag := file[|MAGIC|..|MAGIC| + NONCE_BYTES], file[|file| - TAG_BYTES..];
    var cipherBytes := |file| - MINIMUM;
    fs.files := fs.files[temporary := []];
    var cipher;
    problem, cipher := DecryptChunks(fs, g, key, nonce, again, |MAGIC| + NONCE_BYTES, cipherBytes,
                                     temporary, disk);
    if problem.None? && g.tag(key, nonce, cipher) != tag { problem := Some(BadTag); }
    if problem.None? && (disk.refuses(Trailer) || disk.refuses(Sync)) { problem := Some(WriteFailed); }
    assert fs.files - {temporary} == old(fs.files);
    if problem.None? {
      var ok := fs.Replace(temporary, target, disk.refuses(Rename));
      if ok {
        assert fs.files == old(fs.files)[target := fs.files[target]];
        assert nonce == NonceOf(file) && fs.files[target] == Xor(g, key, NonceOf(file), 0, cipher);
        return;
      }
      problem := Some(WriteFailed);
    }
    fs.Unlink(temporary);
    assert fs.files == old(fs.files);
  }
}
