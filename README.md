# ftpush in Dafny

`ftpush.py` watches a local directory with inotify and mirrors every change to an FTP
server. It does four things, and this project models each of them:

- **Connection URL.** `Monitor.__init__` appends a `/` to the URL if it is missing.
  It then splits the URL with one regular expression into user, password, host and
  remote path, and asks for a password when a user came without one. `Url` models
  this. The regular expression is deterministic: every character class runs to the
  first character it excludes, and no backtracking can change that. So the regex is
  written out as a string function, not as a regex engine.
- **Recursive removal.** `remove(p, is_dir)` deletes a file with DELE. For a
  directory it sends NLST, then for every listed entry other than `.` and `..` a DELE
  that falls back to removing the entry as a directory, and finally RMD.
- **Recursive upload.** `upload(p)` stores a file with STOR. For a directory it sends
  MKD, then uploads every entry of the local directory.
- **Event dispatch.** The five `process_IN_*` handlers choose between these two
  procedures. The `event_handler` decorator drops events whose path matches an ignore
  pattern, and catches `ftplib.error_perm` and no other error.

Structure:

- `Server` is the remote side as a value. It holds:
  - a map from remote paths (lists of components, relative to the directory the
    session changed into) to a file size or a directory;
  - the order in which NLST lists the entries;
  - whether NLST also lists `.` and `..`;
  - a table of injected faults.
- The five commands are functions from the server to a new server and an outcome.
  A command fails with `error_perm` when its path is missing or of the wrong kind, or
  when the directory is not empty. A command listed in the fault table fails with the
  error given there: a 4xx reply, a dropped connection, or a 5xx the server had its
  own reasons for.
- `Session.FtpSession` is the `ftplib.FTP` object. It is a class whose fields are that
  state plus the log of every command sent. Its methods `Remove` and `Upload` are the
  recursive procedures, with their `for` loops.
- Each method is proved to do exactly what a function of the old state describes:
  `Removal.RemoveRun` or `Uploading.UploadRun`. The properties are proved as lemmas
  about those functions:
  - what is sent, in which order;
  - what is left on the server;
  - what is never touched;
  - that the server stays a tree.
- `SelfListing` runs the removal against a server whose NLST of a file lists the
  file itself, with a bound on the recursion depth (see Findings).
- The local directory is an immutable tree (`Paths.LocalNode`).
- `Events.Monitor` holds the session, the parsed endpoint and the ignore list.
  `Handle` is one decorated handler applied to one event.

Four behaviours of the code that are easy to assume otherwise, each modelled as the
code has it:

- There is no keepalive timer and no other concurrent activity: events are handled
  one at a time.
- The handler catches `ftplib.error_perm` only. Every other error (a 4xx reply, a
  dropped connection, an OSError reading a local file) leaves the handler.
- The default `--ignore ''` gives the list `['']`. Its empty pattern matches every
  path, so by default every event is ignored. See Findings.
- The user name comes only from the URL; there is no option for it.

## Model

| member | source | states |
|---|---|---|
| Url.NormalizeUrl | ftpush.py:18 | No result exactly for the empty URL (`url[-1]` raises); otherwise the URL is a prefix of the result, at most one character is added and the result ends in `/` |
| Url.NormalizeIdempotent | ftpush.py:18 | Normalising a normalised URL changes nothing |
| Url.MatchCredentials | ftpush.py:22 | The first alternative sets groups 1 and 2 together and then leaves group 3 unset; group 1 has no `:`, groups 2 and 3 no `@` |
| Url.MatchHostPath | ftpush.py:22 | The host holds no `/`; the path group holds no newline (`.` stops there) |
| Url.MatchUrl | ftpush.py:22 | The scheme is matched exactly when the URL starts with `ftp://`; the group invariants above hold of the whole match |
| Url.MatchSpans | ftpush.py:22 | The matched groups, put back together, are a prefix of the URL: the whole URL when there is no path group, else up to the end or the first newline |
| Url.CredentialsSplit | ftpush.py:22 | The credential groups and the rest put back together give the text after the scheme |
| Url.FirstAlternative | ftpush.py:22 | `user:pass@` matches exactly when, after the scheme, some `:` is followed later by an `@` |
| Url.SecondAlternative | ftpush.py:22 | `user@` matches exactly when the first alternative does not and an `@` follows the scheme |
| Url.Parse | ftpush.py:22-28 | A URL yields an endpoint exactly when it is not empty |
| Url.Configure | ftpush.py:23-31 | The password is the prompted one exactly when a non-empty user came with an empty or absent password; user, server and path are those parsed |
| Url.RemotePathPresent | ftpush.py:22-28 | The remote path is absent (so `cwd(None)` is called) only for the URL `ftp://` |
| Url.NormalizedCompose | ftpush.py:18 | A composed URL gets exactly the `/` its path lacks |
| Url.MatchComposed | ftpush.py:22 | On a composed URL the regex gives back the scheme, credentials, host and path it was composed of |
| Url.CredentialsOf | ftpush.py:22 | Anonymous, `user@` and `user:pass@` credentials fill the groups of their own alternative |
| Url.ParseCompose | ftpush.py:18-28 | For `[ftp://][user[:pass]@]host[/path]` with plain components, parsing gives that user (none for an empty one before `:`), that password (none without `:`), that host and the path with a trailing `/` |
| Url.PromptCompose | ftpush.py:30-31 | For such a URL a prompt is needed exactly for `user@` with a non-empty user, or `user:@` with a non-empty user |
| Paths.Lookup | ftpush.py:79-89 | The empty path is the root; nothing lies below a file |
| Paths.LookupChild | ftpush.py:85-86 | In a tree whose names are distinct, `pathname + '/' + filename` for a listed entry reaches exactly that entry's node |
| Server.DeleteStep | ftpush.py:74 | DELE succeeds exactly on an existing file without a fault, and then removes only it; on failure nothing changes |
| Server.RmdStep | ftpush.py:71 | RMD succeeds exactly on an existing, empty directory without a fault, and then removes only it |
| Server.MkdStep | ftpush.py:80 | MKD succeeds exactly on a new path whose parent is a directory, and then adds only that directory |
| Server.StorStep | ftpush.py:92 | STOR succeeds exactly on a path that is not a directory and whose parent is one, and then stores only that file with its size |
| Server.NlstReply | ftpush.py:63 | NLST succeeds exactly on a directory without a fault; it lists only children of the directory, and every listed entry other than a dot entry exists |
| Server.NlstListsEveryChild | ftpush.py:63 | Every child of the directory is listed |
| Server.NlstNamesOnce | ftpush.py:63 | No child is listed twice |
| Server.DeleteKeepsValid | ftpush.py:74 | DELE keeps the server a tree |
| Server.RmdKeepsValid | ftpush.py:71 | RMD keeps the server a tree |
| Server.MkdKeepsValid | ftpush.py:80 | MKD keeps the server a tree |
| Server.StorKeepsValid | ftpush.py:92 | STOR keeps the server a tree |
| Removal.RemoveRun | ftpush.py:57-75 | `remove` never creates anything on the server |
| Removal.TryRemove | ftpush.py:66-69 | The attempt on a child starts with DELE of it, and never creates anything |
| Removal.TryFallsBack | ftpush.py:66-69 | Spells out the `try`/`except` of one attempt: after a successful DELE nothing follows; after a failed one, whatever the error, come the commands and the outcome of removing the entry as a directory |
| Removal.ChildrenRun | ftpush.py:63-69 | The loop over the listing never creates anything |
| Removal.RemoveListed | ftpush.py:60-71 | Spells out the directory branch once NLST answered: the listing meets the loop's precondition, and the run is the NLST followed by the loop and, if the loop got through, the RMD |
| Removal.ChildrenFailureSticks | ftpush.py:63-69 | Once an error escapes a turn, no later entry is acted on |
| Removal.RemoveKeepsValid | ftpush.py:57-75 | `remove` keeps the server a tree |
| Removal.ChildrenKeepValid | ftpush.py:63-69 | The loop keeps the server a tree |
| Removal.TryKeepsValid | ftpush.py:66-69 | The DELE-or-remove-directory attempt keeps the server a tree |
| Removal.RemoveConfined | ftpush.py:57-75 | Every command is for `p` or a path below it, and every entry outside `p`'s subtree survives |
| Removal.ChildrenConfined | ftpush.py:63-69 | The loop sends commands only strictly below `p` and leaves `p` and everything outside its subtree |
| Removal.TryConfined | ftpush.py:66-69 | The attempt on a child touches only that child's subtree |
| Removal.RemoveOkMeansGone | ftpush.py:57-75 | When `remove` ends without an error, nothing is left at or below `p` |
| Removal.RemoveCompletes | ftpush.py:60-71 | On a tree server that fails no request and has no entry named `.` or `..`, removing an existing directory ends without an error (so, by `RemoveOkMeansGone`, nothing is left at or below it) |
| Removal.ChildrenCompletes | ftpush.py:63-69 | On such a server every turn of the loop succeeds; each real entry already visited is gone with its subtree, and each one still ahead is there |
| Removal.TryCompletes | ftpush.py:66-69 | On such a server the attempt on an existing entry, file or directory, succeeds and leaves nothing at or below it |
| Removal.RemoveFileIsOneDelete | ftpush.py:73-74 | Removing a file sends exactly one DELE, which succeeds exactly on an existing file without a fault |
| Removal.DotsOnlyChildren | ftpush.py:63-65 | A listing of dot entries only sends nothing and changes nothing |
| Removal.EmptyListingOnlyRmd | ftpush.py:63-71 | A directory whose listing holds nothing but dot entries gets exactly NLST and RMD, and the outcome is the RMD's |
| Removal.ChildrenOpsOwned | ftpush.py:63-69 | Every command of the first `k` turns is below one of the first `k` listed entries, none on a dot entry |
| Removal.EveryChildTriedFirstAsFile | ftpush.py:63-69 | When the loop got through, the first command touching each listed non-dot entry's subtree is that entry's DELE |
| Removal.RmdLastAfterEveryChild | ftpush.py:60-71 | NLST comes first; without an RMD the removal failed; otherwise the RMD is sent once, as the last command, and before it every listed non-dot entry got its DELE before any other command on its subtree |
| SelfListing.UndeletableFileLoops | ftpush.py:63-69 | As written, on a server whose NLST of a file names the file itself: the attempt on a listed file that the server refuses to delete does not end within any depth |
| SelfListing.UndeletableFileReported | ftpush.py:63-71 | With listed entries equal to the directory itself skipped, the same attempt ends after DELE, NLST and RMD with the RMD's `error_perm` |
| SelfListing.RefusedListingEnds | ftpush.py:63-69 | On the main model's server, whose NLST refuses a file, the same attempt ends after DELE and NLST with the NLST's `error_perm` |
| Uploading.UploadRun | ftpush.py:77-95 | `upload` starts with the file's STOR or the directory's MKD |
| Uploading.UploadPath | ftpush.py:77-89 | A path that holds nothing locally fails reading its size before any command is sent; otherwise it is the upload of the node found there |
| Uploading.EntriesFailureSticks | ftpush.py:85-86 | Once an error escapes one entry's upload, no later entry is uploaded |
| Uploading.UploadConfined | ftpush.py:77-95 | Every command is for `p` or below it, and the server changes only there, never losing an entry |
| Uploading.ChildrenConfined | ftpush.py:85-86 | The loop sends commands and changes the server only strictly below `p` |
| Uploading.MkdPrecedesContents | ftpush.py:79-86 | Every command comes after the MKD of each directory between `p` and the command's path |
| Uploading.ChildrenMkdBefore | ftpush.py:85-86 | Inside the loop over a directory's entries, every command comes after the MKD of each directory strictly between `p` and the command's path |
| Uploading.UploadFileIsOneStor | ftpush.py:87-92 | Spells out the file branch: one STOR with the file's size, succeeding exactly when the path is not a directory and its parent is one |
| Uploading.MkdFailureAborts | ftpush.py:79-86 | Spells out the directory branch when MKD fails: MKD is the only command, nothing changes and its error is the outcome |
| Uploading.UploadOkMirrors | ftpush.py:77-95 | When the upload of a tree with distinct names ends without an error, the server holds the local subtree at `p`: every file with its size, every directory |
| Uploading.ChildrenOkMirror | ftpush.py:85-86 | When the loop got through, every local entry of the first `k` is mirrored below `p` |
| Uploading.UploadCompletes | ftpush.py:77-95 | On a server that injects no error, uploading a tree with distinct names to a path that holds nothing yet, inside an existing directory, ends without an error: every MKD and STOR succeeds |
| Uploading.UploadMirrorsTree | ftpush.py:77-95 | Such an upload leaves the server holding the whole local tree at `p` |
| Uploading.ChildrenComplete | ftpush.py:85-86 | On such a server, with `p` an existing directory holding nothing yet, the first `k` turns of the loop succeed and the places of the entries still ahead stay empty |
| Uploading.UploadKeepsValid | ftpush.py:77-95 | `upload` keeps the server a tree |
| Uploading.ChildrenKeepValid | ftpush.py:85-86 | The loop keeps the server a tree |
| Session.FtpSession.constructor | ftpush.py:33 | The session starts on the given server state with an empty log |
| Session.FtpSession.Nlst | ftpush.py:63 | The reply is `NlstReply`; state unchanged, NLST logged |
| Session.FtpSession.Delete | ftpush.py:74 | The new state and outcome are those of `DeleteStep`; DELE logged |
| Session.FtpSession.Rmd | ftpush.py:71 | The new state and outcome are those of `RmdStep`; RMD logged |
| Session.FtpSession.Mkd | ftpush.py:80 | The new state and outcome are those of `MkdStep`; MKD logged |
| Session.FtpSession.Stor | ftpush.py:92 | The new state and outcome are those of `StorStep`; STOR logged |
| Session.FtpSession.Remove | ftpush.py:57-75 | New state, logged commands and outcome are those of `RemoveRun` |
| Session.FtpSession.RemoveDirectory | ftpush.py:60-72 | The directory branch does what `RemoveRun` says for a directory |
| Session.FtpSession.RemoveListing | ftpush.py:63-71 | Loop then RMD do what `AfterListing` says |
| Session.FtpSession.RemoveEntries | ftpush.py:63-69 | The loop has the effect of all of its turns in `ChildrenRun`, stopping at the first escaping error |
| Session.FtpSession.RemoveEntry | ftpush.py:64-69 | One turn moves the state from `ChildrenRun` of `i` entries to that of `i + 1`; dot entries are skipped |
| Session.FtpSession.TryRemove | ftpush.py:66-69 | `try: remove(q, False) except: remove(q, True)` does what `Removal.TryRemove` says |
| Session.FtpSession.Upload | ftpush.py:77-95 | New state, logged commands and outcome are those of `UploadRun` |
| Session.FtpSession.UploadEntries | ftpush.py:85-86 | The loop has the effect of `EntriesRun` over all entries, stopping at the first escaping error |
| Session.FtpSession.UploadEntry | ftpush.py:86 | One turn moves the state from `EntriesRun` of `i` entries to that of `i + 1` |
| Session.FtpSession.UploadPath | ftpush.py:77-89 | Uploading a path of the local tree does what `Uploading.UploadPath` says |
| Events.Dispatch | ftpush.py:97-126 | CREATE uploads exactly directories, CLOSE_WRITE exactly files, MOVED_TO everything; DELETE and MOVED_FROM remove with the event's `dir` flag; nothing else happens |
| Events.Boundary | ftpush.py:50-53 | The handler completes exactly on success, reports exactly an `error_perm`, and lets every other error escape with that error |
| Events.LiteralMatch | ftpush.py:47 | `re.match` of a pattern without special characters is a prefix test |
| Events.LiteralMatchesEmpty | ftpush.py:47 | The empty pattern matches every path |
| Events.IgnoredGrows | ftpush.py:46-48 | Adding patterns before or after never un-ignores a path |
| Events.Split | ftpush.py:164 | `split(',')` gives at least one piece and no piece holds a comma |
| Events.JoinSplit | ftpush.py:164 | Joining the pieces with commas gives back the option text |
| Events.SplitJoin | ftpush.py:164 | Comma-free pieces joined and split give back the same pieces |
| Events.IgnoreList | ftpush.py:164 | The ignore list as written: at least one pattern, and joining gives back the option |
| Events.DefaultIgnoresEverything | ftpush.py:157-164 | The default option gives `['']`, and with a matcher that accepts the empty pattern every path is ignored |
| Events.NonEmpty | ftpush.py:164 | Keeps exactly the pieces that are not empty |
| Events.CorrectedIgnoreList | ftpush.py:164 | The corrected list holds exactly the non-empty pieces of the option |
| Events.CorrectedDefaultIgnoresNothing | ftpush.py:157-164 | The corrected list is empty for the default option, so no path is ignored |
| Events.CorrectedKeepsPatterns | ftpush.py:164 | For comma-separated non-empty patterns the corrected list ignores exactly what the patterns do |
| Events.Monitor.constructor | ftpush.py:16-33 | The monitor holds the normalised URL, the endpoint with its prompted password, the ignore list and a fresh session on the remote state |
| Events.Monitor.IsIgnored | ftpush.py:46-48 | The loop over the patterns answers exactly whether some pattern matches the pathname |
| Events.Monitor.Process | ftpush.py:97-126 | The handler for the event's kind does nothing, `remove` or `upload` as `Dispatch` decides: new state, logged commands and outcome are those of `RemoveRun` or `UploadPath` |
| Events.Monitor.Handle | ftpush.py:44-55 | For an ignored path nothing is sent and nothing changes. Otherwise the handler runs as `Process` does, and its end is the `Boundary` of the outcome, so only `error_perm` is caught |

## Left out

- The inotify watch and the notifier loop and its stop (ftpush.py:11-14, 128-140). They
  are operating-system event I/O, so events are input values of `Monitor.Handle`.
- The network connection, login and `cwd` (ftpush.py:33, 40). The session starts on a
  given server state that is already inside the remote directory. The case where
  `cwd(None)` would be called is characterised by `Url.RemotePathPresent`.
- Opening and streaming the file's bytes (ftpush.py:91-93). A file is its size.
- The password prompt, all printing and `optparse` (ftpush.py:31, 36-42, 142-167):
  - the prompted password is a parameter of `Url.Configure`;
  - the ignore list is a parameter of the monitor;
  - `Events.IgnoreList` models how line 164 builds it.
- The regular-expression engine behind the ignore test (ftpush.py:47). The matcher is
  a parameter. `Events.LiteralMatch` is the matcher for patterns without special
  characters.
- Invalid ignore patterns. The matcher is a total predicate, but for a pattern that is
  not a valid regular expression (such as `*.swp`) `re.match` raises `re.error` at
  line 47. That is before the `try`, so the error leaves the handler on every event.
- `os.path.relpath` and `abspath` (ftpush.py:16, 58, 78, 88). An event carries:
  - its path, already relative and split into components, which is sent to the server;
  - its absolute pathname, which the ignore patterns are matched against.
- `os.path.isdir`, `os.listdir` and `os.path.getsize` read the local tree
  (`Paths.Lookup`). A path that holds nothing fails as an OSError (`LocalIO`), and the
  handler does not catch it.
- Session.FtpSession.Upload: it recurses on the local node rather than looking up
  `pathname + '/' + filename` again. `Paths.LookupChild` shows the two agree in a tree
  whose names are distinct.
- The order and content of an NLST reply beyond what the model server gives. That is:
  - each existing child once, in order of first creation, starting from the order the
    given state lists them in (a path deleted and created again keeps its old place);
  - optionally `.` and `..` in front.
  Servers that give names relative to the listed directory, or other orders, are not
  modelled.
- NLST of a non-directory. The model server refuses it with `error_perm`, and that
  alone bounds the recursion of `Removal.RemoveRun`. Many servers instead answer NLST
  of a file with the file itself. Against those, `remove` recurses without end on a
  file whose DELE fails (see Findings). `SelfListing` models that server with a depth
  budget. In Python the recursion ends at the interpreter's recursion limit, whose
  error the handler does not catch.
- Which replies a real server gives. Every error that does not come from the server's
  state is an injected fault, decided per request and independent of the state.
- Concurrency and keepalive. Neither exists in this file.

## Findings

| source | as written | input that shows it | evidently intended | confidence | as-written member | corrected member |
|---|---|---|---|---|---|---|
| ftpush.py:63-69 | the bare `except` retries any failed DELE of a listed entry as `remove(pathname, True)`, and NLST of a file lists the file itself on many servers, so the retry sends DELE of the same file again, and so on | a file `d/f` that the server refuses to delete (550), on a server whose `NLST d/f` replies `d/f`; IN_DELETE of directory `d` | the error of the undeletable file is reported and the removal of `d` stops | medium; not executed | SelfListing.UndeletableFileLoops | SelfListing.UndeletableFileReported |
| ftpush.py:164 | `options.ignore.split(',')` gives `['']` for the default `--ignore ''` (line 157), and `re.match('', path)` matches every path, so every event is ignored | no `--ignore` option: any event, e.g. IN_CLOSE_WRITE on `a.txt` | the default ignores nothing: empty pieces of the option are no patterns | high; not executed | Events.DefaultIgnoresEverything | Events.CorrectedDefaultIgnoresNothing |
