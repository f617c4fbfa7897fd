# NeuroVault core in Dafny

NeuroVault is a single-user vault. It keeps one encrypted record (free-form notes and a
last-modified timestamp) on disk under a symmetric key. It shows the record only after
a webcam face check accepts the user. This project models and proves the two parts of it
that carry logic:

- **The vault store** (`VaultEncryptor`, class `Vault.VaultEncryptor`). It manages a key
  file and a data file, takes backup copies and restores them, rotates the key, checks the
  record's structure, and securely deletes files. The file system is a
  `map<string, seq<bv8>>`. Fernet encryption and the JSON codec are an opaque
  `CipherSuite`: which keys Fernet accepts, `encrypt(key, document, nonce)`, and
  `decrypt(key, blob) : Option<Document>`. Two things are assumed about it. The first is the
  round trip: decrypting with the encrypting key gives the document back. The second is that
  Fernet accepts every key `Fernet.generate_key` returns. A decrypted value is a JSON
  object (`map<string,string>`, so extra fields are kept) or some other JSON value. This
  makes the `isinstance(data, dict)` branch of the integrity check observable. A ghost
  journal `history` records every file mutation in order. This lets the contracts state
  write order: rotation writes the key before the data, and secure delete makes three
  overwrite passes and then removes the file.
- **Face authentication** (`FaceAuthenticator`, class `FaceAuth.FaceAuthenticator`):
  - Enrolment: load the pickled encodings, or create them from the reference image.
  - The match rule `verify_face`: some detected face is within the tolerance of some
    enrolled encoding. Distances come from an opaque function into the reals.
  - The `authenticate` loop. It reduces a stream of timed frames to accept or reject. It
    uses an attempt counter, a consecutive-match counter, an attempt cap and a strict
    timeout. The loop is proved equal to a pure decision function, `AuthLoop.Decide`.
    The counter, reason and scenario properties are proved about that function.

Random bytes, the clock and the camera are parameters:
- `freshKey` is what `Fernet.generate_key` returns. It is assumed to be a key Fernet accepts.
- `nonce` is the randomness of one encryption.
- `urandom(pass, size)` is what `os.urandom` returns in each overwrite pass.
- `now` is the `datetime.now()` reading that names a backup.
- `start` and each frame's `clock` are the `time.time()` readings, as integers.
- `cameraOpened` is what `cap.isOpened()` reports.

Where the source raises an exception that its caller sees, the model returns `false`,
`None` (for `EncryptData` and `DecryptData`), an `EnrollOutcome` other than `Enrolled`, or,
for `VaultEncryptor`'s constructor, an object whose cipher is still unset.

The model follows the code, including these behaviours a reader might not expect:
- `load_data` turns a decryption failure into the empty record. It does not report an
  integrity error.
- `change_encryption_key` installs the new key and writes the key file before it
  re-encrypts the data. A two-phase rotation would persist the key only after the data had
  been re-encrypted; this code persists it first. A key that Fernet
  rejects aborts the rotation only after the backup copy has been made.
- The automatic backup name is `<data file>.backup_%Y%m%d_%H%M%S`. It has an underscore
  between the date and the time.
- `verify_data_integrity` therefore returns true for a data file that does not decrypt.

## Model

| member | source | states |
|---|---|---|
| `Timestamp.Digits` | neurovault_encryptor.py:248 | each strftime field is rendered in exactly `width` decimal digits |
| `Timestamp.NumberOfDigits` | neurovault_encryptor.py:248 | reading a zero-padded field back gives the number that was rendered |
| `Timestamp.Stamp` | neurovault_encryptor.py:248 | the `%Y%m%d_%H%M%S` stamp is 15 characters: digits, with `_` at position 8 |
| `Timestamp.ParseStampRoundTrip` | neurovault_encryptor.py:248 | parsing a stamp gives back the clock reading it was made from |
| `Timestamp.StampInjective` | neurovault_encryptor.py:248 | different clock readings give different stamps |
| `Disk.Overwrite` | neurovault_encryptor.py:405-408 | a write at an offset in `r+b` mode replaces exactly the bytes it covers and keeps the rest |
| `Disk.FullLengthOverwriteErasesAll` | neurovault_encryptor.py:402-408 | a pass from offset 0 as long as the file leaves none of the old bytes |
| `Vault.DefaultBackupPath` | neurovault_encryptor.py:246-249 | the default backup path extends the data file path by `.backup_` and a 15-character stamp, so it never equals the data file |
| `Vault.DefaultBackupPathsDistinct` | neurovault_encryptor.py:246-253 | backups taken at different seconds get different paths |
| `Vault.OverwritePassesCoverFile` | neurovault_encryptor.py:402-410 | secure deletion makes exactly three passes, each from offset 0 and each of the original file length |
| `Vault.VaultEncryptor.constructor` | neurovault_encryptor.py:24-37 | the paths are stored, then the key is loaded or generated: an existing key file is kept and installed when Fernet accepts it (otherwise the cipher stays unset, the exception `__init__` raises); a missing one is created with the fresh key, which is installed |
| `Vault.VaultEncryptor.LoadKey` | neurovault_encryptor.py:92-111 | a key is returned exactly when the key file exists, and it is that file's contents |
| `Vault.VaultEncryptor.SaveKey` | neurovault_encryptor.py:72-111 | the key file is replaced by the key, so `load_key` returns it, and nothing else changes |
| `Vault.VaultEncryptor.LoadOrGenerateKey` | neurovault_encryptor.py:113-130 | an existing key file is used unchanged; a missing one is created with a fresh key; the call fails, leaving the cipher unset, exactly when the stored key is one Fernet rejects; on success the cipher holds the key file's contents |
| `Vault.VaultEncryptor.EncryptData` | neurovault_encryptor.py:132-153 | encryption fails only without a cipher, and what it produces decrypts under the current cipher to the same document |
| `Vault.VaultEncryptor.DecryptData` | neurovault_encryptor.py:155-177 | without a cipher nothing decrypts |
| `Vault.VaultEncryptor.SaveData` | neurovault_encryptor.py:179-201 | only the data file is rewritten, with the encryption under the current key; afterwards `load_data` returns the saved document |
| `Vault.VaultEncryptor.LoadData` | neurovault_encryptor.py:203-229 | a missing data file gives exactly `{notes: "", last_modified: ""}`; a file that does not decrypt gives the same; otherwise the result is exactly what the file decrypts to |
| `Vault.VaultEncryptor.BackupData` | neurovault_encryptor.py:231-260 | succeeds exactly when the data file exists and the target is not the data file itself; then the target holds the same bytes and the data file is unchanged; otherwise no file changes |
| `Vault.VaultEncryptor.RestoreData` | neurovault_encryptor.py:262-293 | succeeds exactly when the backup exists, decrypts under the current cipher and is not the data file; only then is the data file replaced by the backup's bytes, after which `load_data` returns the backup's contents |
| `Vault.VaultEncryptor.ChangeEncryptionKey` | neurovault_encryptor.py:295-331 | the backup is attempted first and its failure does not abort; the rotation succeeds exactly when Fernet accepts the given (or fresh) key; then the cipher holds it, the key file is written before the data file, and the data file decrypts under the new key to the record loaded before rotation |
| `Vault.VaultEncryptor.VerifyDataIntegrity` | neurovault_encryptor.py:333-362 | true with no data file; true for a data file that does not decrypt; otherwise true exactly when the decrypted value is an object with both `notes` and `last_modified` |
| `Vault.VaultEncryptor.SecureDeleteFile` | neurovault_encryptor.py:387-420 | a missing path is left alone; otherwise the journal gains three full-length overwrites from offset 0 followed by the removal, and only that path disappears |
| `FaceMatch.NothingToCompareNeverMatches` | neurovault_face_auth.py:138-139 | no enrolled or no detected encodings means no match |
| `FaceMatch.ToleranceIsInclusive` | neurovault_face_auth.py:148-152 | a distance equal to the tolerance matches and a larger one does not |
| `FaceMatch.LooserToleranceKeepsMatches` | neurovault_face_auth.py:34 | a larger tolerance accepts every frame a smaller one accepts |
| `FaceAuth.Enroll` | neurovault_face_auth.py:68-80 | enrolment succeeds exactly when the image loads, a face is located and encodings are produced |
| `FaceAuth.Classify` | neurovault_face_auth.py:194-218 | a dropped frame is unreadable; a captured frame with no encodings is a no-face frame; a captured frame matches exactly when `verify_face` accepts its encodings, and is a mismatch otherwise |
| `FaceAuth.Reply` | neurovault_face_auth.py:210-228 | success is reported exactly on acceptance; both rejections carry an "Authentication failed:" message |
| `FaceAuth.FaceAuthenticator.Enrollment` | neurovault_face_auth.py:62-80 | a missing reference image is unreadable; enrolment succeeds exactly when the image exists and yields at least one located face and a non-empty list of encodings |
| `FaceAuth.FaceAuthenticator.AfterLoadOrCreate` | neurovault_face_auth.py:41-60 | a readable encodings file becomes the known list and nothing is written; an unreadable one empties the list; without one, a successful enrolment makes the reference image's encodings the list and writes them to the encodings file, a failed one empties the list, and with neither file nothing changes |
| `FaceAuth.FaceAuthenticator.EnrollmentSurvivesRestart` | neurovault_face_auth.py:45-49 | when pickle reads back the encodings the recognizer produces, the encodings written by a successful enrolment are exactly what the next start loads |
| `FaceAuth.FaceAuthenticator.constructor` | neurovault_face_auth.py:22-39 | any store and recognizer are accepted; tolerance 0.6, three attempts, ten seconds, then the enrolment step |
| `FaceAuth.FaceAuthenticator.LoadOrCreateEncodings` | neurovault_face_auth.py:41-60 | the encodings and files become those of the enrolment step; an unreadable encodings file or failed enrolment leaves the list empty; with neither file the list is unchanged |
| `FaceAuth.FaceAuthenticator.CreateFaceEncodings` | neurovault_face_auth.py:62-93 | on success the reference image's encodings are stored and written to the encodings file, and they load back whenever pickle round-trips the recognizer's encodings; on every failure (no image, no face, no encoding) nothing changes |
| `FaceAuth.FaceAuthenticator.UpdateReferenceFace` | neurovault_face_auth.py:234-262 | the old image is renamed to `.backup` first; a missing new image or a failed enrolment returns false but leaves the files moved and the encodings unchanged |
| `FaceAuth.FaceAuthenticator.ReferenceBackupPath` | neurovault_face_auth.py:247 | the backup name extends the reference image path by `.backup`, so the move never lands on the reference image itself |
| `FaceAuth.FaceAuthenticator.VerifyFace` | neurovault_face_auth.py:127-158 | the result is true exactly when some detected encoding is within the tolerance of some enrolled one |
| `FaceAuth.FaceAuthenticator.Authenticate` | neurovault_face_auth.py:160-232 | not enrolled and camera unavailable are reported before the loop; otherwise the result is the reply to the decision of the loop over the frames' outcomes |
| `AuthLoop.Tick` | neurovault_face_auth.py:194-218 | an unreadable frame changes nothing; the attempts grow, by one, exactly on a mismatch; a match extends the run by one and a no-face frame or a mismatch resets it |
| `AuthLoop.TimedOut` | neurovault_face_auth.py:191 | a reading exactly at the deadline is not late and one a second after it is |
| `AuthLoop.TimedOutPersists` | neurovault_face_auth.py:191 | once a reading is past the deadline, every later reading is too |
| `AuthLoop.Decide` | neurovault_face_auth.py:183-228 | the loop consumes a prefix of the stream; a timeout is reported on a reading strictly after the deadline; acceptance happens on a matching frame |
| `AuthLoop.ReplayCounts` | neurovault_face_auth.py:194-218 | started from zero, the attempts counter is the number of mismatches and the consecutive counter is the trailing run of matches, with unreadable frames changing neither |
| `AuthLoop.DecideTrace` | neurovault_face_auth.py:189-221 | every consumed frame was read before the deadline, and the exit counters are the per-frame updates replayed over the consumed frames |
| `AuthLoop.DecideVerdict` | neurovault_face_auth.py:225-228 | the loop reports "Maximum attempts exceeded" exactly when the attempts reached the cap, and otherwise a timeout or success |
| `AuthLoop.DecideBounds` | neurovault_face_auth.py:189-215 | attempts never pass the cap; consecutive matches stay below three and are exactly three at, and only at, acceptance |
| `AuthLoop.AcceptedAfterThreeInARow` | neurovault_face_auth.py:204-212 | a fresh session accepts only right after three matching frames with only unreadable frames between them, with fewer mismatches than the cap, all before the deadline |
| `AuthLoop.RejectionReason` | neurovault_face_auth.py:189-192 | a session stopped on attempts has seen exactly max_attempts mismatches; a timed-out one has seen fewer and stopped at a reading strictly past the deadline |
| `AuthLoop.ThreeMatchesAccept` | neurovault_face_auth.py:206-212 | MATCH ×3 is accepted after three frames with no attempt used |
| `AuthLoop.ThreeMismatchesReject` | neurovault_face_auth.py:213-216 | MISMATCH ×3 is rejected for attempts after three frames |
| `AuthLoop.InterruptedRunStillAccepts` | neurovault_face_auth.py:204-216 | MATCH, MATCH, MISMATCH, MATCH, MATCH, MATCH is accepted with one attempt used |
| `AuthLoop.NoFramesTimesOut` | neurovault_face_auth.py:190-192 | with no reading before the deadline the session times out without consuming a frame |
| `AuthLoop.DeadlineIsStrict` | neurovault_face_auth.py:191 | frames read exactly at the deadline are still processed |
| `AuthLoop.NoFaceResetsRunButCostsNoAttempt` | neurovault_face_auth.py:194-218 | an unreadable frame keeps the run, a frame with no face resets it without costing an attempt |

## Left out

- `derive_key_from_password` (PBKDF2 over SHA-256) is not modelled. It is a foreign cryptographic call and none of the modelled operations use it.
- `generate_key`, `os.urandom` and the Fernet nonce and timestamp are parameters (`freshKey`, `urandom`, `nonce`). Fernet and JSON internals are opaque functions. They carry two assumptions: the round trip, and that Fernet accepts every generated key.
- Exceptions from the file system are not modelled: permission errors, a full disk, an empty path, a path that is a directory, and a failure between two writes. Every read and write of an existing path succeeds.
- Vault.VaultEncryptor.SecureDeleteFile: always returns true, because the only way the source returns false is an I/O error. `flush`/`fsync` durability is not modelled.
- Vault.VaultEncryptor.LoadOrGenerateKey: a failure to write the generated key file is not modelled, for the same reason.
- `os.chmod` permission bits, metadata copied by `shutil.copy2`, `print` logging, `get_file_info`, `get_face_info`, `test_camera` and both `main` test drivers are left out. They are diagnostics or I/O only.
- Vault.VaultEncryptor.constructor: when `__init__` raises, Python's caller gets no object; the model cannot withhold the object, so it returns one whose cipher is unset. The no-cipher branches of `EncryptData`, `DecryptData` and `SaveData` are reachable only from that state.
- Vault.VaultEncryptor.BackupData, Vault.VaultEncryptor.RestoreData: paths are compared as strings, so two spellings of one file (`./vault_data.json` and `vault_data.json`, or a symbolic link) are different files in the model, and `shutil.copy2`'s `SameFileError` is raised only for identical strings. The same holds for every path in both classes.
- FaceAuth.FaceAuthenticator.CreateFaceEncodings: that the written encodings load back is promised only when pickle round-trips the encodings the recognizer produces (`StoreRoundTrips`); pickle itself is opaque.
- Timestamp.Stamp: requires a four-digit year. strftime's rendering of years before 1000 differs between platforms.
- FaceAuth.FaceAuthenticator.Authenticate: requires that the clock passes the deadline on some delivered frame, so the finite frame stream never runs out before the loop ends. A real clock always does this. Exceptions raised inside the loop (`Authentication error: ...`, lines 230-232) are not modelled.
- FaceAuth.FaceAuthenticator.VerifyFace: the exception branch (shape errors inside `face_distance`) is not modelled, because the distance is a total function.
- OpenCV capture, frame flipping, colour conversion and `detect_and_encode_face` are not modelled. A frame is given directly as its list of detected encodings, empty when no face was found. Camera properties and `time.sleep(0.1)` are not modelled either.
- Floating point is not modelled: distances and the tolerance are exact reals. Clock readings are integers.
- neurovault_main.py (the tkinter GUI and its worker threads) and neurovault_setup.py (the installer) are not part of this model.
