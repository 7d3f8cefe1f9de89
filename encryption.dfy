/**
 * At-rest encryption of the storage tree. The filesystem is a map from path to
 * file contents; the symmetric cipher is a pair of functions whose only
 * assumed law is that decryption undoes encryption.
 */
module Encryption {
  import opened Wrappers

  newtype byte = x: int | 0 <= x < 256

  type Bytes = seq<byte>

  type Path = string

  /** The name suffix that marks a file as already encrypted. */
  const Suffix: string := ".encrypted"

  /**
   * The process-wide cipher: `enc` never fails, `dec` fails (None) on a token
   * that is corrupted or was made under another key.
   */
  datatype Cipher = Cipher(enc: Bytes -> Bytes, dec: Bytes -> Option<Bytes>)

  /** The inverse law assumed of the cipher. */
  ghost predicate Inverts(c: Cipher)
  {
    forall b :: c.dec(c.enc(b)) == Some(b)
  }

  predicate EndsWith(s: string, suffix: string)
  {
    |suffix| <= |s| && s[|s| - |suffix|..] == suffix
  }

  /** A file the pass encrypts: its name does not end in the suffix. */
  predicate IsPlain(p: Path)
  {
    !EndsWith(p, Suffix)
  }

  /** `p` with the suffix taken off. */
  function Strip(q: Path): Path
    requires EndsWith(q, Suffix)
  {
    q[..|q| - |Suffix|]
  }

  lemma StripAppend(p: Path)
    ensures EndsWith(p + Suffix, Suffix) && Strip(p + Suffix) == p
  {
  }

  lemma AppendStrip(q: Path)
    requires EndsWith(q, Suffix)
    ensures Strip(q) + Suffix == q
  {
  }

  /** The encrypted names for a set of plaintext paths. */
  function Targets(paths: set<Path>): set<Path>
  {
    set p | p in paths :: p + Suffix
  }

  /** `q` is the encrypted name of one of `paths`. */
  predicate IsTargetOf(q: Path, paths: set<Path>)
  {
    EndsWith(q, Suffix) && Strip(q) in paths
  }

  lemma TargetsExactly(paths: set<Path>, q: Path)
    ensures q in Targets(paths) <==> IsTargetOf(q, paths)
  {
    if q in Targets(paths) {
      var p :| p in paths && q == p + Suffix;
      StripAppend(p);
    }
    if IsTargetOf(q, paths) {
      AppendStrip(q);
    }
  }

  /** The plaintext paths a walk lists. */
  function PlainIn(walk: seq<Path>): set<Path>
  {
    set p | p in walk && IsPlain(p)
  }

  /** The plaintext paths of a store. */
  function PlainKeys(files: map<Path, Bytes>): set<Path>
  {
    set p | p in files && IsPlain(p)
  }

  /** `done` is a set of plaintext files of `files`. */
  predicate PlainSubset(files: map<Path, Bytes>, done: set<Path>)
  {
    forall p :: p in done ==> p in files && IsPlain(p)
  }

  /**
   * The store once every plaintext file in `done` has been replaced by its
   * encrypted counterpart: each such `p` is gone and `p + Suffix` holds the
   * ciphertext of its bytes, overwriting whatever was there; every other file
   * is as it was.
   */
  function SealSet(files: map<Path, Bytes>, done: set<Path>, enc: Bytes -> Bytes): (r: map<Path, Bytes>)
    requires PlainSubset(files, done)
  {
    map q | q in (files.Keys - done) + Targets(done) ::
      if IsTargetOf(q, done) then enc(files[Strip(q)])
      else TargetsExactly(done, q); files[q]
  }

  /** The store after the whole pass: every plaintext file sealed. */
  function Sealed(files: map<Path, Bytes>, enc: Bytes -> Bytes): map<Path, Bytes>
  {
    SealSet(files, PlainKeys(files), enc)
  }

  /** A snapshot of the storage tree: every file listed, none twice. */
  predicate IsWalkOf(walk: seq<Path>, files: map<Path, Bytes>)
  {
    && (forall i, j :: 0 <= i < j < |walk| ==> walk[i] != walk[j])
    && (forall p :: p in walk ==> p in files)
    && (forall p :: p in files ==> p in walk)
  }

  /** One more walked path adds itself to the walked plaintext set when it is plaintext; it was not walked before. */
  lemma WalkStep(walk: seq<Path>, files: map<Path, Bytes>, i: nat)
    requires IsWalkOf(walk, files) && i < |walk|
    ensures walk[i] in files && walk[i] !in PlainIn(walk[..i])
    ensures PlainIn(walk[..i + 1]) == PlainIn(walk[..i]) + (if IsPlain(walk[i]) then {walk[i]} else {})
  {
  }

  /** A complete walk lists exactly the plaintext files of the store. */
  lemma WalkDone(walk: seq<Path>, files: map<Path, Bytes>)
    requires IsWalkOf(walk, files)
    ensures walk[..|walk|] == walk && PlainIn(walk) == PlainKeys(files)
  {
  }

  /** Sealing one more plaintext file is one `encrypt_file` followed by one `os.remove`. */
  lemma SealOneMore(files: map<Path, Bytes>, done: set<Path>, enc: Bytes -> Bytes, p: Path)
    requires PlainSubset(files, done)
    requires p in files && IsPlain(p) && p !in done
    ensures p in SealSet(files, done, enc) && SealSet(files, done, enc)[p] == files[p]
    ensures SealSet(files, done, enc)[p + Suffix := enc(files[p])] - {p} == SealSet(files, done + {p}, enc)
  {
    var g := SealSet(files, done, enc);
    var h := SealSet(files, done + {p}, enc);
    TargetsExactly(done, p);
    assert !IsTargetOf(p, done);
    var lhs := g[p + Suffix := enc(files[p])] - {p};
    StripAppend(p);
    forall q | q in lhs
      ensures q in h && h[q] == lhs[q]
    {
      TargetsExactly(done, q);
      TargetsExactly(done + {p}, q);
      if q != p + Suffix && EndsWith(q, Suffix) {
        AppendStrip(q);
      }
    }
    forall q | q in h
      ensures q in lhs
    {
      TargetsExactly(done, q);
      TargetsExactly(done + {p}, q);
    }
    assert lhs == h;
  }

  /** After the pass no file name lacks the suffix: each walked plaintext path is gone. */
  lemma SealedLeavesNoPlain(files: map<Path, Bytes>, enc: Bytes -> Bytes)
    ensures forall q :: q in Sealed(files, enc) ==> !IsPlain(q)
    ensures PlainKeys(Sealed(files, enc)) == {}
  {
  }

  /** Each plaintext file's encrypted name holds the ciphertext of its original bytes. */
  lemma SealedHoldsCiphertext(files: map<Path, Bytes>, enc: Bytes -> Bytes, p: Path)
    requires p in files && IsPlain(p)
    ensures p !in Sealed(files, enc)
    ensures p + Suffix in Sealed(files, enc) && Sealed(files, enc)[p + Suffix] == enc(files[p])
  {
  }

  /**
   * A file already ending in the suffix is neither read nor re-encrypted: it
   * keeps its bytes unless a plaintext twin's ciphertext overwrites it.
   */
  lemma SealedKeepsEncrypted(files: map<Path, Bytes>, enc: Bytes -> Bytes, q: Path)
    requires q in files && !IsPlain(q)
    requires Strip(q) !in PlainKeys(files)
    ensures q in Sealed(files, enc) && Sealed(files, enc)[q] == files[q]
  {
  }

  /**
   * The pass overwrites: with "notes" and "notes.encrypted" side by side, the
   * second file's bytes are lost and two files become one.
   */
  lemma SealedOverwritesTwin(enc: Bytes -> Bytes, b: Bytes)
    ensures var files := map["notes" := b, "notes.encrypted" := enc(b) + [0]];
      && Sealed(files, enc).Keys == {"notes.encrypted"}
      && Sealed(files, enc)["notes.encrypted"] == enc(b) != files["notes.encrypted"]
  {
    var files := map["notes" := b, "notes.encrypted" := enc(b) + [0]];
    assert "notes" + Suffix == "notes.encrypted";
    assert IsPlain("notes");
    assert !IsPlain("notes.encrypted");
    assert PlainKeys(files) == {"notes"};
    SealedHoldsCiphertext(files, enc, "notes");
    SealedLeavesNoPlain(files, enc);
    assert Targets({"notes"}) == {"notes.encrypted"};
  }

  /** Sealing with nothing to do changes nothing. */
  lemma SealNothing(files: map<Path, Bytes>, enc: Bytes -> Bytes)
    ensures SealSet(files, {}, enc) == files
  {
  }

  /** A second pass over the result of the first leaves the store unchanged. */
  lemma SealedIdempotent(files: map<Path, Bytes>, enc: Bytes -> Bytes)
    ensures Sealed(Sealed(files, enc), enc) == Sealed(files, enc)
  {
  }

  /** Why `decrypt_file` fails. */
  datatype DecryptError =
    | NoSuchFile        // the file cannot be opened: raised before the try block
    | DecryptionFailed  // any cipher failure: "Failed to decrypt file. It may be corrupted or the key is wrong."

  /** `decrypt_file(path)`: the plaintext of the file, or why there is none. It only reads `files`. */
  function DecryptFile(files: map<Path, Bytes>, cipher: Cipher, path: Path): (r: Result<Bytes, DecryptError>)
    ensures path !in files ==> r == Failure(NoSuchFile)
    ensures path in files ==> (r.Success? <==> cipher.dec(files[path]).Some?)
    ensures r.Success? ==> Some(r.value) == cipher.dec(files[path])
    ensures r.Failure? && path in files ==> r.error == DecryptionFailed
  {
    if path !in files then Failure(NoSuchFile)
    else
      match cipher.dec(files[path])
      case Some(plain) => Success(plain)
      case None => Failure(DecryptionFailed)
  }

  /** Under the inverse law, decrypting `p + Suffix` after the pass yields `p`'s original bytes. */
  lemma DecryptAfterSeal(files: map<Path, Bytes>, cipher: Cipher, p: Path)
    requires Inverts(cipher)
    requires p in files && IsPlain(p)
    ensures DecryptFile(Sealed(files, cipher.enc), cipher, p + Suffix) == Success(files[p])
  {
  }

  /** The storage tree on disk and the cipher the module was loaded with. */
  class Storage {
    var files: map<Path, Bytes>
    const cipher: Cipher

    constructor (files: map<Path, Bytes>, cipher: Cipher)
      ensures this.files == files && this.cipher == cipher
    {
      this.files := files;
      this.cipher := cipher;
    }

    /**
     * `encrypt_file(input, output)`: a missing input fails with nothing
     * changed; otherwise `output` is created or overwritten with the ciphertext
     * of `input` and every other file is left alone.
     */
    method EncryptFile(input: Path, output: Path) returns (ok: bool)
      modifies this
      ensures ok <==> input in old(files)
      ensures ok ==> files == old(files)[output := cipher.enc(old(files)[input])]
      ensures !ok ==> files == old(files)
    {
      if input !in files {
        return false;
      }
      var data := files[input];
      files := files[output := cipher.enc(data)];
      return true;
    }

    /** `os.remove(path)`: fails on a missing file; the store is without `path` afterwards. */
    method RemoveFile(path: Path) returns (ok: bool)
      modifies this
      ensures ok <==> path in old(files)
      ensures files == old(files) - {path}
    {
      ok := path in files;
      files := files - {path};
    }

    /**
     * `encrypt_storage`: walks a snapshot of the tree; every file not ending in
     * the suffix is encrypted to its name plus the suffix and then removed.
     */
    method EncryptStorage(walk: seq<Path>)
      requires IsWalkOf(walk, files)
      modifies this
      ensures files == Sealed(old(files), cipher.enc)
    {
      ghost var start := files;
      ghost var done: set<Path> := {};
      SealNothing(start, cipher.enc);
      assert PlainIn(walk[..0]) == {};
      var i := 0;
      while i < |walk|
        invariant 0 <= i <= |walk|
        invariant done == PlainIn(walk[..i]) && PlainSubset(start, done)
        invariant files == SealSet(start, done, cipher.enc)
      {
        var p := walk[i];
        WalkStep(walk, start, i);
        if IsPlain(p) {
          SealOneMore(start, done, cipher.enc, p);
          ghost var next := SealSet(start, done + {p}, cipher.enc);
          var encrypted := EncryptFile(p, p + Suffix);
          var removed := RemoveFile(p);
          assert files == next;
          done := done + {p};
        }
        i := i + 1;
      }
      WalkDone(walk, start);
    }
  }
}
