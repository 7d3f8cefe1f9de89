# Secure home cloud: access control and at-rest encryption, in Dafny

A model of the two pieces of the home file-sharing server that carry logic of
their own:

- **Access control** (`access_control.dfy`, module `AccessControl`). The user
  table and the role → top-level-folder table are constants. `CheckAccess`
  is `check_access`: a role is granted a request path exactly when the path
  starts with `'/'` followed by one of the role's folders. This is a raw
  string prefix, not a path segment, so `/guestbook` is granted to `guest`,
  and the model keeps that. `Authorize` is the guard chain that the
  `requires_auth` decorator runs before a route handler. Missing credentials,
  or a password that the hash check rejects, give 401 (for an unknown
  username see "## Left out"). A required role that differs from the user's role
  gives 403. A path outside the role's folders gives 403. Otherwise the
  handler runs. The password-hash check is a function parameter `verify`.
- **At-rest encryption** (`encryption.dfy`, module `Encryption`). The storage
  tree is a map from path to bytes, held in the field `files` of class
  `Storage`. The Fernet cipher is a pair of functions `enc`/`dec`. The law
  `dec(enc(b)) == Some(b)` is the predicate `Inverts`, and only the
  round-trip lemma assumes it. `Storage.EncryptStorage` is the start-up pass.
  It takes a snapshot of the tree's file paths, and the loop encrypts every
  file whose name does not end in `.encrypted` into `name + ".encrypted"`
  and then removes the original. The method is proved against `Sealed`, a
  closed form of the store after the pass that does not depend on walk
  order. The pass's properties are lemmas about `Sealed`. `DecryptFile` is
  `decrypt_file`, a pure read that yields the plaintext or one of two errors.

`wrappers.dfy` holds the `Option` and `Result` datatypes.

Facts the model makes explicit:

- If a plaintext `x` sits beside an existing `x.encrypted`, the pass
  overwrites `x.encrypted` with the ciphertext of `x`. The old bytes of
  `x.encrypted` are lost (`SealedOverwritesTwin`).
- `decrypt_file` opens the file outside its `try` block. So a missing file
  fails differently (`NoSuchFile`) from every cipher failure, and all cipher
  failures become the one `DecryptionFailed`.
- `role_required` is tested for truthiness. An empty required role therefore
  behaves like no requirement (`EmptyRoleRequiredIsNone`).

Guest tokens with expiry, case-insensitive roles, a folder allow-list and
traversal-safe path resolution do not exist in this code. They are not
modelled.

## Model

| member | source | states |
|---|---|---|
| `AccessControl.Folders` | src/access_control.py:13-38 | the `ROLE_PERMISSIONS.get(role, [])` lookup over the constant table `RolePermissions`: an unknown role has no folders, and every role's folders are among admin's ("can access everything") |
| `AccessControl.FirstMatch` | src/access_control.py:38-41 | the search over a folder list succeeds iff some folder, prefixed by '/', is a prefix of the path |
| `AccessControl.CheckAccess` | src/access_control.py:36-41 | `check_access(role, path)` is true iff the path starts with '/' + f for some folder f of the role (`Grants`) |
| `AccessControl.UnknownRoleRefused` | src/access_control.py:38 | a role that is not a key of the permission table is refused every path, with no error |
| `AccessControl.GuestOnlyGuestPrefix` | src/access_control.py:36-41 | role `guest` is granted exactly the paths that begin with `/guest` |
| `AccessControl.GuestExamples` | src/access_control.py:38-39 | `guest` is refused `/family/x` and `/logs/x` and, since the test is a raw prefix, granted `/guestbook` |
| `AccessControl.FamilyWithinAdmin` | src/access_control.py:13-17 | every path granted to `family` is granted to `admin` |
| `AccessControl.AdminGrantedEverything` | src/access_control.py:13-17 | any path granted to any role is granted to `admin` |
| `AccessControl.TraversalPassesPrefix` | src/access_control.py:39 | `guest` is granted `/guest/../family/x`: the prefix test ignores path segments |
| `AccessControl.GrantedExtends` | src/access_control.py:39 | if a path is granted to a role, so is that path followed by any string |
| `AccessControl.UsersHaveKnownRoles` | src/access_control.py:6-17 | every user in the constant user table `Users` has a role that is a key of the permission table |
| `AccessControl.Authorize` | src/access_control.py:47-64 | the decorator either runs the handler or aborts with 401 or 403; it gives 401 exactly when the first guard `LoggedIn` fails (line 50); the handler runs only for a verified user whose role is granted the path; the second guard is `RoleMismatch` (line 57) |
| `AccessControl.HandlerRunsIffGuardsPass` | src/access_control.py:50-64 | the handler runs iff credentials verify, the required role (if any) equals the user's role, and `check_access` grants the path |
| `AccessControl.CredentialsCheckedFirst` | src/access_control.py:50-52 | missing or failing credentials give 401 whatever the required role and the path |
| `AccessControl.RoleCheckedBeforePath` | src/access_control.py:57-62 | for a verified user a role mismatch gives the role-403 whatever the path |
| `AccessControl.PathCheckedLast` | src/access_control.py:61-62 | a verified user without a role mismatch whose path `check_access` refuses gets 403 "Access denied to this path." |
| `AccessControl.EmptyRoleRequiredIsNone` | src/access_control.py:57 | an empty `role_required` decides exactly as an absent one |
| `AccessControl.GuestUserConfined` | src/access_control.py:54-64 | whatever the password check, `guest_user` reaches a handler only for paths beginning with `/guest` |
| `Encryption.Storage.constructor` | src/utils/encryption.py:7-8 | the store starts with the given files and the process-wide cipher |
| `Encryption.Storage.EncryptFile` | src/utils/encryption.py:10-16 | a missing input fails and changes nothing; otherwise `output` holds `enc` of the input's bytes and every other path is unchanged |
| `Encryption.Storage.RemoveFile` | src/utils/encryption.py:35 | removal fails iff the file is missing; the path is absent afterwards and nothing else changes |
| `Encryption.Storage.EncryptStorage` | src/utils/encryption.py:29-35 | after the pass over a snapshot of every file, the store is `Sealed` of the store before it |
| `Encryption.SealOneMore` | src/utils/encryption.py:33-35 | one `encrypt_file` to `p + ".encrypted"` followed by removing `p` extends the sealed set by exactly `p` |
| `Encryption.SealedLeavesNoPlain` | src/utils/encryption.py:30-35 | after the pass every file name ends in `.encrypted`, so each walked plaintext path no longer exists |
| `Encryption.SealedHoldsCiphertext` | src/utils/encryption.py:33-35 | each plaintext `p` is removed, and `p + ".encrypted"` holds `enc` of `p`'s original bytes |
| `Encryption.SealedKeepsEncrypted` | src/utils/encryption.py:32 | a file already ending in `.encrypted` keeps its bytes (is not re-encrypted) unless a plaintext twin overwrites it |
| `Encryption.SealedOverwritesTwin` | src/utils/encryption.py:34 | with `notes` beside `notes.encrypted`, the pass overwrites `notes.encrypted`, losing its bytes, and leaves one file of two |
| `Encryption.SealedIdempotent` | src/utils/encryption.py:32 | a second pass over the result of the first leaves the store unchanged |
| `Encryption.DecryptFile` | src/utils/encryption.py:18-26 | a missing file gives `NoSuchFile`; otherwise success iff `dec` succeeds, with `dec`'s plaintext, and every cipher failure gives the one `DecryptionFailed` |
| `Encryption.DecryptAfterSeal` | src/utils/encryption.py:18-24 | if `dec` inverts `enc`, decrypting `p + ".encrypted"` after the pass yields `p`'s original bytes |

## Left out

- Flask wiring is not modelled: routing, `request.authorization`, `abort`, `send_file` and `app.run`. The request path and the credentials are inputs to `Authorize`, and its result stands for "call the handler" or "abort with this status".
- `serve_file` in `src/server.py` is not part of this model. It joins folder and filename without any containment check, tests `isfile` and calls `decrypt_file`.
- Password hashing with werkzeug (`hash_password`, `verify_password`) is a foreign call. It is the parameter `verify(hash, password)`.
- CredentialsCheckedFirst: for a username missing from the table the source passes `None` as the stored hash to werkzeug's `check_password_hash`, which raises on it; nothing catches that, so the server answers 500. The model treats the missing hash as a failed check and answers 401, so for unknown usernames this lemma holds of the model only.
- The placeholder hashes shipped in the user table contain a single `$`, which werkzeug's hash format rejects, so as shipped no login succeeds. `verify` is left arbitrary, so the model does not capture this.
- The block that re-hashes the user passwords sits under `if __name__ == "__init__"`, which never holds. It is dead code and is not modelled.
- Fernet and key loading (the environment variable with a hard-coded default) are not modelled. `enc` is a fixed function, while Fernet draws a fresh IV and timestamp on each call. The inverse law is assumed through `Inverts`, not proved.
- The filesystem is a map from path to bytes. Directories, the order of `os.walk`, I/O errors other than a missing file, and partial writes are not modelled. The nested loops over directories and their files become one loop over a snapshot listing every file once (`IsWalkOf`).
- The `.encrypted` test is applied to the whole path rather than to the file name. This is equivalent, because the suffix contains no `/`.
- Inside `EncryptStorage`, the failure result of `EncryptFile` is not acted on. The snapshot guarantees that every plaintext path is present when it is reached, so the exception the source would raise cannot occur.
