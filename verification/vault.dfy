/**
 * The vault store of neurovault_encryptor.py: one key file, one encrypted data
 * file, backup copies of it, and the cipher the object currently holds.
 *
 * The Fernet cipher and the JSON codec are opaque: a CipherSuite supplies which
 * keys Fernet accepts, how a document is encrypted (under a key and a fresh
 * nonce) and how a blob is decrypted. Two things are assumed of it: decrypting
 * with the key that encrypted gives the document back (RoundTrips), and Fernet
 * accepts every key Fernet.generate_key returns (the `suite.accepts(freshKey)`
 * preconditions).
 */
module Vault {
  import opened Wrappers
  import opened Disk
  import opened Timestamp

  type Key = Bytes
  type Nonce = Bytes
  type Record = map<string, string>

  /** The value json.loads yields from a decrypted blob: an object, or any other JSON value. */
  datatype Document = Object(fields: Record) | NonObject(json: string)

  const RequiredFields: set<string> := {"notes", "last_modified"}

  /** What load_data hands back when there is nothing it can read. */
  const EmptyRecord: Document := Object(map["notes" := "", "last_modified" := ""])

  /** The structure verify_data_integrity checks: a dict holding both required fields. */
  predicate WellFormed(d: Document) {
    d.Object? && RequiredFields <= d.fields.Keys
  }

  datatype CipherSuite = CipherSuite(
    accepts: Key -> bool,                     // Fernet(key) does not raise
    encrypt: (Key, Document, Nonce) -> Bytes, // json.dumps then Fernet.encrypt
    decrypt: (Key, Bytes) -> Option<Document>) // Fernet.decrypt then json.loads; None when either raises

  /** Decrypting with the key that encrypted restores the document. */
  ghost predicate RoundTrips(suite: CipherSuite) {
    forall k, d, n :: suite.accepts(k) ==> suite.decrypt(k, suite.encrypt(k, d, n)) == Some(d)
  }

  const BackupInfix: string := ".backup_"

  /** The path backup_data picks when it is given none: data file, ".backup_", timestamp. */
  function DefaultBackupPath(dataFile: Path, now: DateTime): (p: Path)
    requires now.Valid()
    ensures |p| == |dataFile| + 23
    ensures p[..|dataFile|] == dataFile && p != dataFile
  {
    dataFile + BackupInfix + Stamp(now)
  }

  /** Backups taken at different seconds never overwrite each other. */
  lemma DefaultBackupPathsDistinct(dataFile: Path, a: DateTime, b: DateTime)
    requires a.Valid() && b.Valid() && a != b
    ensures DefaultBackupPath(dataFile, a) != DefaultBackupPath(dataFile, b)
  {
    var n := |dataFile| + |BackupInfix|;
    assert DefaultBackupPath(dataFile, a)[n..] == Stamp(a);
    assert DefaultBackupPath(dataFile, b)[n..] == Stamp(b);
    StampInjective(a, b);
  }

  /** secure_delete_file overwrites a file this many times before removing it. */
  const OverwritePassCount: nat := 3

  /** The overwrite passes secure_delete_file makes on a file of `size` bytes, in order. */
  function OverwritePasses(path: Path, size: nat, urandom: (nat, nat) -> Bytes): seq<FileOp> {
    seq(OverwritePassCount, pass requires 0 <= pass < OverwritePassCount => WriteAt(path, 0, urandom(pass, size)))
  }

  /** Exactly three passes, each from offset 0 and each as long as the file. */
  lemma OverwritePassesCoverFile(path: Path, size: nat, urandom: (nat, nat) -> Bytes)
    requires forall pass, n :: |urandom(pass, n)| == n
    ensures |OverwritePasses(path, size, urandom)| == 3
    ensures forall k :: 0 <= k < 3 ==>
      var op := OverwritePasses(path, size, urandom)[k];
      op.WriteAt? && op.path == path && op.offset == 0 && |op.data| == size
  {
  }

  class VaultEncryptor {
    const suite: CipherSuite
    const keyFile: Path
    const dataFile: Path
    /** The key of the Fernet object in self.cipher; None until a key has been installed. */
    var cipher: Option<Key>
    var files: Files
    /** Every file mutation this object has performed, oldest first. */
    ghost var history: seq<FileOp>

    ghost predicate Valid()
      reads this
    {
      RoundTrips(suite) && (cipher.Some? ==> suite.accepts(cipher.value))
    }

    /**
     * __init__: the field assignments, then load_or_generate_key with `freshKey` as
     * what Fernet.generate_key returns. A cipher still unset afterwards is the
     * exception __init__ lets escape.
     */
    constructor (suite: CipherSuite, keyFile: Path, dataFile: Path, disk: Files, freshKey: Key)
      requires RoundTrips(suite) && suite.accepts(freshKey)
      ensures Valid()
      ensures this.suite == suite && this.keyFile == keyFile && this.dataFile == dataFile
      ensures keyFile in disk ==>
        && files == disk && history == []
        && (cipher.Some? <==> suite.accepts(disk[keyFile]))
        && (cipher.Some? ==> cipher.value == disk[keyFile])
      ensures keyFile !in disk ==>
        files == disk[keyFile := freshKey] && history == [Write(keyFile, freshKey)] && cipher == Some(freshKey)
    {
      this.suite := suite;
      this.keyFile := keyFile;
      this.dataFile := dataFile;
      files := disk;
      cipher := None;
      history := [];
      new;
      var ok := LoadOrGenerateKey(freshKey);
    }

    /** load_key: the key file's bytes, or None when it does not exist. */
    function LoadKey(): (key: Option<Key>)
      reads this
      ensures key.Some? <==> keyFile in files
      ensures key.Some? ==> key.value == files[keyFile]
    {
      if keyFile in files then Some(files[keyFile]) else None
    }

    method SaveKey(key: Key)
      modifies this
      ensures files == old(files)[keyFile := key]
      ensures history == old(history) + [Write(keyFile, key)]
      ensures cipher == old(cipher)
      ensures LoadKey() == Some(key)
    {
      files := files[keyFile := key];
      history := history + [Write(keyFile, key)];
    }

    /**
     * load_or_generate_key. `freshKey` is what Fernet.generate_key returns; a result
     * of false is the exception __init__ lets escape.
     */
    method LoadOrGenerateKey(freshKey: Key) returns (ok: bool)
      requires Valid() && suite.accepts(freshKey)
      modifies this
      ensures Valid()
      ensures old(keyFile in files) ==>
        files == old(files) && history == old(history) && (ok <==> suite.accepts(old(files[keyFile])))
      ensures old(keyFile !in files) ==>
        ok && files == old(files)[keyFile := freshKey] && history == old(history) + [Write(keyFile, freshKey)]
      ensures ok ==> cipher == LoadKey()
      ensures !ok ==> cipher == old(cipher)
    {
      var key := LoadKey();
      if key.None? {
        SaveKey(freshKey);
        key := Some(freshKey);
      }
      if !suite.accepts(key.value) {
        return false;
      }
      cipher := key;
      ok := true;
    }

    /** decrypt_data: None when there is no cipher or when Fernet or json.loads raises. */
    function DecryptData(blob: Bytes): (d: Option<Document>)
      reads this
      ensures cipher.None? ==> d.None?
    {
      if cipher.None? then None else suite.decrypt(cipher.value, blob)
    }

    /** encrypt_data: None when there is no cipher (the call raises). */
    function EncryptData(d: Document, nonce: Nonce): (blob: Option<Bytes>)
      reads this
      ensures blob.Some? <==> cipher.Some?
      ensures Valid() && blob.Some? ==> DecryptData(blob.value) == Some(d)
    {
      if cipher.None? then None else Some(suite.encrypt(cipher.value, d, nonce))
    }

    /** save_data; a result of false is the exception it re-raises. */
    method SaveData(d: Document, nonce: Nonce) returns (ok: bool)
      requires Valid()
      modifies this
      ensures Valid() && cipher == old(cipher)
      ensures ok <==> cipher.Some?
      ensures ok ==> files == old(files)[dataFile := suite.encrypt(cipher.value, d, nonce)]
      ensures ok ==> history == old(history) + [Write(dataFile, suite.encrypt(cipher.value, d, nonce))]
      ensures !ok ==> files == old(files) && history == old(history)
      ensures ok ==> LoadData() == d
    {
      var blob := EncryptData(d, nonce);
      if blob.None? {
        return false;
      }
      files := files[dataFile := blob.value];
      history := history + [Write(dataFile, blob.value)];
      ok := true;
    }

    /** load_data: a missing file and a file that does not decrypt both give the empty record. */
    function LoadData(): (d: Document)
      reads this
      ensures dataFile !in files ==> d == EmptyRecord
      ensures dataFile in files && DecryptData(files[dataFile]).None? ==> d == EmptyRecord
      ensures dataFile in files && DecryptData(files[dataFile]).Some? ==> d == DecryptData(files[dataFile]).value
      ensures d == EmptyRecord || (dataFile in files && DecryptData(files[dataFile]) == Some(d))
    {
      if dataFile !in files then EmptyRecord
      else match DecryptData(files[dataFile])
        case None => EmptyRecord
        case Some(d) => d
    }

    /** backup_data; `target` is the backup_file argument and `now` the clock reading. */
    method BackupData(target: Option<Path>, now: DateTime) returns (ok: bool)
      requires now.Valid()
      modifies this
      ensures cipher == old(cipher)
      ensures var dest := if target.Some? then target.value else DefaultBackupPath(dataFile, now);
        && (ok <==> dataFile in old(files) && dest != dataFile)
        && (ok ==> files == old(files)[dest := old(files)[dataFile]] && files[dest] == files[dataFile])
        && (ok ==> history == old(history) + [Copy(dataFile, dest)])
        && (!ok ==> files == old(files) && history == old(history))
    {
      if dataFile !in files {
        return false;
      }
      var dest := if target.Some? then target.value else DefaultBackupPath(dataFile, now);
      if dest == dataFile {
        // shutil.copy2 raises SameFileError
        return false;
      }
      files := files[dest := files[dataFile]];
      history := history + [Copy(dataFile, dest)];
      ok := true;
    }

    /** restore_data: the backup must decrypt under the current cipher before it is copied. */
    method RestoreData(source: Path) returns (ok: bool)
      requires Valid()
      modifies this
      ensures Valid() && cipher == old(cipher)
      ensures ok <==> source in old(files) && DecryptData(old(files)[source]).Some? && source != dataFile
      ensures ok ==> files == old(files)[dataFile := old(files)[source]]
      ensures ok ==> history == old(history) + [Copy(source, dataFile)]
      ensures ok ==> LoadData() == DecryptData(old(files)[source]).value
      ensures !ok ==> files == old(files) && history == old(history)
    {
      if source !in files {
        return false;
      }
      var probe := DecryptData(files[source]);
      if probe.None? {
        return false;
      }
      if source == dataFile {
        // shutil.copy2 raises SameFileError
        return false;
      }
      files := files[dataFile := files[source]];
      history := history + [Copy(source, dataFile)];
      ok := true;
    }

    /**
     * change_encryption_key. `newKey` is the new_key argument, `freshKey` what
     * Fernet.generate_key returns when it is absent, `now` the clock reading the
     * backup is named after and `nonce` the randomness of the re-encryption.
     */
    method ChangeEncryptionKey(newKey: Option<Key>, freshKey: Key, now: DateTime, nonce: Nonce) returns (ok: bool)
      requires Valid() && now.Valid() && suite.accepts(freshKey)
      modifies this
      ensures Valid()
      ensures var key := if newKey.Some? then newKey.value else freshKey;
        var backup := DefaultBackupPath(dataFile, now);
        var backedUp := if dataFile in old(files) then old(files)[backup := old(files)[dataFile]] else old(files);
        var backupOps := if dataFile in old(files) then [Copy(dataFile, backup)] else [];
        var blob := suite.encrypt(key, old(LoadData()), nonce);
        && (ok <==> suite.accepts(key))
        && (!ok ==> cipher == old(cipher) && files == backedUp && history == old(history) + backupOps)
        && (ok ==> cipher == Some(key) && files == backedUp[keyFile := key][dataFile := blob])
        && (ok ==> history == old(history) + backupOps + [Write(keyFile, key), Write(dataFile, blob)])
      ensures ok ==> LoadData() == old(LoadData())
      ensures ok ==> DecryptData(files[dataFile]) == Some(old(LoadData()))
      ensures ok && keyFile != dataFile ==> LoadKey() == cipher
    {
      var existing := LoadData();
      var backedUp := BackupData(None, now);
      var key := if newKey.Some? then newKey.value else freshKey;
      if !suite.accepts(key) {
        // Fernet(new_key) raises
        return false;
      }
      cipher := Some(key);
      SaveKey(key);
      var saved := SaveData(existing, nonce);
      ok := true;
    }

    /** verify_data_integrity. Because LoadData masks decryption failures, so does this. */
    function VerifyDataIntegrity(): (ok: bool)
      reads this
      ensures dataFile !in files ==> ok
      ensures dataFile in files && DecryptData(files[dataFile]).None? ==> ok
      ensures dataFile in files && DecryptData(files[dataFile]).Some? ==>
        (ok <==> WellFormed(DecryptData(files[dataFile]).value))
    {
      dataFile !in files || WellFormed(LoadData())
    }

    /**
     * secure_delete_file. urandom(pass, size) is what os.urandom(size) returns in
     * the given pass.
     */
    method SecureDeleteFile(path: Path, urandom: (nat, nat) -> Bytes) returns (ok: bool)
      requires forall pass, n :: |urandom(pass, n)| == n
      modifies this
      ensures ok
      ensures cipher == old(cipher)
      ensures path !in old(files) ==> files == old(files) && history == old(history)
      ensures path in old(files) ==> files == old(files) - {path}
      ensures path in old(files) ==>
        history == old(history) + OverwritePasses(path, |old(files)[path]|, urandom) + [Remove(path)]
    {
      if path !in files {
        return true;
      }
      var size := |files[path]|;
      var pass := 0;
      while pass < OverwritePassCount
        invariant 0 <= pass <= OverwritePassCount
        invariant path in files && |files[path]| == size
        invariant files - {path} == old(files) - {path}
        invariant history == old(history) + OverwritePasses(path, size, urandom)[..pass]
        invariant cipher == old(cipher)
      {
        var noise := urandom(pass, size);
        files := files[path := Overwrite(files[path], 0, noise)];
        history := history + [WriteAt(path, 0, noise)];
        pass := pass + 1;
      }
      files := files - {path};
      history := history + [Remove(path)];
      ok := true;
    }
  }
}
