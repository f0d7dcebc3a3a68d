# Encrypted snapshots of Back In Time, modelled in Dafny

Back In Time can keep its snapshots inside an encfs-encrypted view. This project
models that layer: `common/encfstools.py` and the helpers it relies on from
`common/tools.py`. It covers three parts.

- **Mounting.**
  - `EncFS_mount` mounts one encfs view, forward or `--reverse`. Before that it
    checks fuse and the encfs version, decides whether a config must be created,
    and backs up `.encfs6.xml`.
  - `EncFS_SSH` chains three mounts: sshfs to the host, a reverse encfs mount of
    `/`, then the forward encfs mount. It also splits the caller's keyword
    arguments for each sub-mount.
- **Path translation.**
  - `Encode` drives a long-lived `encfsctl encode` process over a line
    protocol. It turns plain paths and rsync filter patterns into encrypted ones.
  - `Decode` does the reverse with `encfsctl decode`. It also rewrites the
    encrypted paths embedded in every kind of line of `takesnapshot.log`.
  - `Bounce` is the translator used when nothing is encrypted.
- **Helpers from `tools.py`.**
  - `patternHasNotEncryptableWildcard`, `get_rsync_caps`, `get_rsync_prefix`.
  - `prepare_path`, `check_cron_pattern`, `wrap_line`, `splitCommands`.
  - `PathHistory` and `OrderedSet`.

The modules follow the program. The line protocol with the external process is a
class `Channel.Pipe`. Its state is the process handle (`Absent`, `Running`,
`Exited`) and the trace of what was written to and read from the process. The
external tool is a function parameter `tool` from the text written to the answer
line read back.

- `Encoding.Encoder` and `Decoding.Decoder` are classes around a `Pipe`. Each
  method is proved against a specification function of the tool. That function
  returns the translated text and the queries sent to the tool, in order.
- `EncFSMount.EncFSMount` and `EncFSSSH.EncFSSSH` are classes whose methods
  change the file maps they are given and append to an event trace.
- The mount and plan methods are proved against functions (`MountCommand`,
  `MountTrace`, `BackupChoice`, `MountPlan`, `Run`). The lemmas about those
  functions state the ordering the source guarantees.
- `wrap_line`, `splitCommands`, `get_rsync_caps` and `get_rsync_prefix` keep
  their loops and their appending, as methods proved equal to functions. The
  functions carry the properties.
- `OrderedSet` keeps its doubly linked cells around a sentinel, indexed by a map.
  Its ghost order sequence is the specification.

Regular expressions are modelled by what each one matches in the source. A regex
`.` does not pass a newline. Lazy groups take the first match, greedy groups the
longest. Where a pattern embeds configuration values (the ssh user, host and
path), those values are matched as literal text.

### Code behaviour worth noting

- `EncFS_mount._mount` calls `backup_config` before it looks at the return code of
  encfs (`common/encfstools.py:107-111`). So a config is backed up even when the
  mount fails. `EncFSMount.BackupBeforeReturnCode` states this.
- `thread.stop()` is reached only when encfs succeeded
  (`common/encfstools.py:109-113`). On failure the exception leaves the password
  thread running. `EncFSMount.ThreadStoppedOnlyOnSuccess` states this.
- `Decode.path` falls back to the encrypted text when the tool's answer is empty.
  `Encode.path` raises `EncodeValueError` for an empty answer to a non-empty
  query and returns the empty answer for an empty query. Both are modelled.
- `EncFS_SSH.pre_mount_check` returns `True` when all three checks pass.
  - When the ssh check gives a false value, it falls off the end and returns
    `None`; the model gives `Ok(false)`.
  - The two encfs checks never give false: they raise or return `True`.
  - `EncFSSSH.EncFSSSH.PreMountCheckAll` models these outcomes.

## Model

| member | source | states |
|---|---|---|
| Strings.PathJoinShape | common/encfstools.py:486-487 | `os.path.join` of two parts always ends with the second part; a relative second part follows the whole first part, with at most one separator added between them |
| Strings.Strip | common/encfstools.py:681 | `strip('\n')`: the result neither starts nor ends with a newline |
| Strings.StripFrames | common/encfstools.py:681 | stripping removes only runs of the stripped character at either end: the input is the result framed by two such runs |
| Strings.Split | common/tools.py:675 | `s.split(',')` always gives at least one piece and no piece holds the separator |
| Strings.JoinSplit | common/tools.py:675 | joining the pieces of a split with the separator gives back the string |
| Strings.SplitJoin | common/tools.py:675 | splitting a join of separator-free pieces gives back the pieces |
| Strings.Drop | common/encfstools.py:516 | Python's `path[n:]`: when `n` is within the text, the result is what follows the first `n` characters, so prefix and result rebuild the text; empty once `n` passes the end |
| Strings.WithTrailingSep | common/encfstools.py:412-416 | the constructors' trailing separator: the result ends with `/`, starts with the input and is at most one character longer |
| Wildcard.AdjacentForm | common/tools.py:973-995 | `patternHasNotEncryptableWildcard` is true exactly when the pattern holds `[`, `]` or `?`, or an asterisk is next to a character that is neither `/` nor `*` |
| Wildcard.SegmentForm | common/tools.py:975 | no asterisk is next to an ordinary character exactly when every path segment that holds an asterisk consists of asterisks only |
| Wildcard.AcceptedExamples | common/tools.py:980 | `foo/*`, `foo/*/bar`, `*/bar` and `**/bar` are translatable, as the docstring says |
| Wildcard.RejectedExamples | common/tools.py:986-988 | `foo*`, `foo/*bar` and patterns with `?` or a bracket class are not |
| Wildcard.AcceptedByAdjacency | common/tools.py:990-995 | a pattern with no `[ ] ?` and no asterisk touching an ordinary character is accepted |
| LogMatch.FindFrom | common/encfstools.py:611 | the lazy `.*?` before a literal: the first occurrence on the same line, no earlier one, and none at all on that line when it fails |
| LogMatch.AltThenCloser | common/encfstools.py:598 | an alternative of the `re_info` / `re_error` opening matched, then the first closing character on the line |
| LogMatch.MatchCopy | common/encfstools.py:611 | a match of `re_info_cp`: the two encrypted groups lie between the literal separators and the match ends on a quote |
| LogMatch.Classify | common/encfstools.py:695-724 | which pattern `Decode.log` applies to a line, in the source's order, with the group boundaries of the match |
| Channel.Launch | common/encfstools.py:449-454 | a process is spawned before a query exactly when none is running (never started, or found terminated) |
| Channel.Rounds | common/encfstools.py:455-456 | each query is one write and one read: two events per query |
| Channel.RoundsAt | common/encfstools.py:455-456 | the `k`-th query is written as event `2k`, and the tool's answer to it is read as event `2k+1` |
| Channel.TranscriptConcat | common/encfstools.py:445-456 | two series of calls leave the same trace and process state as one series of all their queries |
| Channel.Chain | common/encfstools.py:445-456 | answered steps compose: what the pipe answered for `a` then `b` is what it answers for `a + b` |
| Channel.Pipe.constructor | common/encfstools.py:408-416 | a translator starts with no process and an empty trace |
| Channel.Pipe.StartProcess | common/encfstools.py:425-443 | `start_process`: the process is running and its spawn, with the `encfsctl` command line, is recorded |
| Channel.Pipe.Exchange | common/encfstools.py:445-456 | one call: the process is started or restarted when it is not running, the query written, the answer line read, and the answer is the tool's |
| Channel.Pipe.Close | common/encfstools.py:519-525 | `close`: only a running process is waited for, and a second close changes nothing |
| Encoding.SeparateAsterisk | common/encfstools.py:420 | `(.*?)(\*+)(.*)`: there is a match exactly when the text holds an asterisk; group 1 has none, group 2 is the first run of them, group 3 does not start with one, and on one line the groups rebuild the text |
| Encoding.PiecesCover | common/encfstools.py:477-499 | the loop of `exclude` walks a pattern as literal and asterisk pieces that together are the whole pattern |
| Encoding.PiecesShape | common/encfstools.py:477-499 | every asterisk piece is a run of asterisks and no literal piece holds one |
| Encoding.MatchEdges | common/encfstools.py:483-490 | when no asterisk touches an ordinary character, the separator checks in the loop always pass |
| Encoding.LoopStep | common/encfstools.py:480-497 | one turn of the loop: the text before the asterisks is translated, the asterisks are kept, and the loop stops or goes on with the rest |
| Encoding.LoopPieces | common/encfstools.py:477-499 | for a tool whose answers to the literal pieces are non-empty, relative and do not end in `/`, the whole loop: each literal piece is translated by its own query, in order, the asterisk runs are kept, and the results are joined with `/` |
| Encoding.ExcludeByPieces | common/encfstools.py:463-504 | for a tool whose answers to the literal pieces are non-empty, relative and do not end in `/`, a translatable wildcard pattern becomes its translated literal pieces and kept asterisk runs, re-rooted when the pattern is absolute |
| Encoding.LoopNeverUntranslatable | common/encfstools.py:477-499 | after the wildcard test has passed, the loop never declares the pattern untranslatable |
| Encoding.UntranslatableIff | common/encfstools.py:470-504 | `exclude` returns `None` exactly when `patternHasNotEncryptableWildcard` holds |
| Encoding.EmbeddedAsteriskRejected | common/encfstools.py:470-471 | a pattern with an asterisk glued to other text is untranslatable and nothing is sent to the tool |
| Encoding.ExcludeWithoutAsterisk | common/encfstools.py:500-504 | a pattern without an asterisk is one `path` query, re-rooted when absolute, or untranslatable when it holds `[ ] ?`; an encode error propagates |
| Encoding.Encoder.constructor | common/encfstools.py:408-416 | `chroot` and `remote_path` end with a separator; no process yet |
| Encoding.Encoder.Path | common/encfstools.py:445-461 | `Encode.path`: the tool's stripped answer; an empty answer to a non-empty query raises `EncodeValueError`; the query is sent once, after a (re)start if needed |
| Encoding.Encoder.Exclude | common/encfstools.py:463-504 | `Encode.exclude` gives the result of the pattern specification and sends exactly its queries, in order |
| Encoding.Encoder.Include | common/encfstools.py:506-510 | `Encode.include`: the translation re-anchored at `/`; an encode error propagates |
| Encoding.Encoder.Remote | common/encfstools.py:512-517 | `Encode.remote`: the first `len(remote_path)` characters are cut off, the rest is translated and joined back onto `remote_path` |
| Encoding.Encoder.Close | common/encfstools.py:519-525 | `Encode.close` waits only for a running process and is idempotent |
| Bounce.Path | common/encfstools.py:535-536 | `Bounce.path` returns the path it is given |
| Bounce.Exclude | common/encfstools.py:538-539 | `Bounce.exclude` accepts every pattern, unchanged |
| Bounce.Include | common/encfstools.py:541-542 | `Bounce.include` returns its input |
| Bounce.Remote | common/encfstools.py:544-545 | `Bounce.remote` returns its input |
| Bounce.BounceIsEchoDecode | common/encfstools.py:664-684 | `Bounce.path` is what `Decode.path` does with a tool that answers every one-line query with the query |
| Decoding.ArrowFrom | common/encfstools.py:617 | the lazy first group of `re_all_except_arrow`: the first ` -> ` or ` => ` on the line |
| Decoding.ArrowRunEnd | common/encfstools.py:617 | the greedy second group: the longest run of arrows right after it |
| Decoding.MatchAt | common/encfstools.py:574-580 | a match of `(OPEN)(.*?)(CLOSE)`: the opening text, then the first closing text on the same line |
| Decoding.PathFallback | common/encfstools.py:680-684 | `Decode.path` gives the stripped answer unless it is empty, and then the encrypted query itself; an all-newline answer falls back |
| Decoding.OneEcho | common/encfstools.py:679-684 | with an echoing tool `Decode.path` returns each one-line query |
| Decoding.ArrowEcho | common/encfstools.py:741-749 | with an echoing tool `path_with_arrow` leaves a one-line text unchanged |
| Decoding.RunsEcho | common/encfstools.py:730 | with an echoing tool the per-run decoding of `replace` leaves a one-line text unchanged |
| Decoding.ReplaceEcho | common/encfstools.py:726-733 | with an echoing tool `replace` gives back the three groups of the match |
| Decoding.SubMatchStep | common/encfstools.py:701-703 | `re.sub` over a match: the replacement of that match, then the substitution resumed after it |
| Decoding.SubEcho | common/encfstools.py:701-703 | `re.sub` with an echoing replacement leaves a one-line text unchanged |
| Decoding.RsyncEcho | common/encfstools.py:700-704 | with an echoing tool the three substitutions leave an rsync command line unchanged |
| Decoding.ChangeEcho | common/encfstools.py:706-708 | with an echoing tool a `[C]` line comes back unchanged |
| Decoding.InfoEcho | common/encfstools.py:713-715 | with an echoing tool an `[I]` information line comes back unchanged |
| Decoding.ErrorEcho | common/encfstools.py:717-719 | with an echoing tool an `[E]` error line comes back unchanged |
| Decoding.CopyEcho | common/encfstools.py:721-723 | with an echoing tool a `cp -aRl` line comes back up to the quote that ends the match |
| Decoding.LogEcho | common/encfstools.py:695-724 | with an echoing tool `Decode.log` returns every one-line log line unchanged, except that a `cp` line ends at its match |
| Decoding.UnmarkedLinesUnchanged | common/encfstools.py:695-724 | a line without an `[I] `, `[C] ` or `[E] ` marker matches no pattern, is returned as it is and asks the tool nothing |
| Decoding.ChangeFrame | common/encfstools.py:706-708 | a `[C]` line keeps its first 16 characters; only the rest goes to `path_with_arrow` |
| Decoding.ArrowSymlink | common/encfstools.py:741-749 | a symlink report `a -> c`: both ends decoded, `a` first, and the arrow kept |
| Decoding.ChangeSymlink | common/encfstools.py:706-708 | a `[C]` symlink line: the frame kept, both ends decoded by separate queries around the kept arrow |
| Decoding.SkipExample | common/encfstools.py:710-712 | rsync's `sending incremental file list` progress line is returned as it is and asks nothing |
| Decoding.ChangeExampleLine | common/encfstools.py:583 | `[C] >f+++++++++ secret` is a change line whose path group is `secret` |
| Decoding.ChangeExample | common/encfstools.py:706-708 | that line, with a tool decoding `secret` to `plain`, becomes `[C] >f+++++++++ plain` after one query |
| Decoding.ListSpec | common/encfstools.py:686-693 | `Decode.list` gives one result per input path |
| Decoding.ListSpecIndex | common/encfstools.py:686-693 | the `k`-th result is the decoding of the `k`-th path |
| Decoding.Decoder.constructor | common/encfstools.py:554-565 | an empty remote snapshots path becomes `./`, and the remote path ends with a separator |
| Decoding.Decoder.Path | common/encfstools.py:664-684 | `Decode.path` never fails: the stripped answer, or the query when that is empty; one query, after a (re)start if needed |
| Decoding.Decoder.List | common/encfstools.py:686-693 | `Decode.list`: every path decoded by its own query, in order |
| Decoding.Decoder.PathWithArrow | common/encfstools.py:741-749 | `path_with_arrow` gives the arrow specification's text and sends exactly its queries |
| Decoding.Decoder.Ends | common/encfstools.py:747 | both ends decoded, in order, with the arrows kept between them |
| Decoding.Decoder.DecodeRuns | common/encfstools.py:730 | each maximal run of characters other than `*` decoded by one query, the asterisks copied |
| Decoding.Decoder.Replace | common/encfstools.py:726-733 | `replace`: group 2 decoded run by run, re-rooted when absolute, between groups 1 and 3 |
| Decoding.Decoder.SubMatch | common/encfstools.py:701 | one match of `re.sub`: the search moves strictly forward and the output so far stays on the specification |
| Decoding.Decoder.Sub | common/encfstools.py:701-703 | `re.sub(pattern, self.replace, line)` gives the substitution specification's text and queries |
| Decoding.Decoder.Log | common/encfstools.py:695-724 | `Decode.log` gives the log specification's text and sends only the line's embedded paths, in order |
| Decoding.Decoder.RsyncLine | common/encfstools.py:700-704 | an rsync command line: include/exclude, remote-path and link-dest substitutions, each on the output of the one before |
| Decoding.Decoder.ChangeLine | common/encfstools.py:706-708 | a `[C]` line: the frame kept, the rest through `path_with_arrow` |
| Decoding.Decoder.InfoLine | common/encfstools.py:713-715 | an information line: group 2 through `path_with_arrow`, groups 1 and 3 kept |
| Decoding.Decoder.ErrorLine | common/encfstools.py:717-719 | an error line: group 2 through `path`, groups 1 and 3 kept |
| Decoding.Decoder.CopyLine | common/encfstools.py:721-723 | a `cp -aRl` line: both quoted paths decoded by two queries, in order |
| Decoding.Decoder.Remote | common/encfstools.py:751-759 | `Decode.remote`: the remote-path prefix cut off unchecked, the rest decoded and joined back on |
| Decoding.Decoder.Close | common/encfstools.py:761-767 | `Decode.close` waits only for a running process and is idempotent |
| EncFSMount.ConfigFile | common/encfstools.py:164-173 | `.encfs6.xml` joined onto `config_path`, or onto `path` when there is none |
| EncFSMount.ConfigFileBasename | common/encfstools.py:262 | the backup's name always starts with `.encfs6.xml`, whichever folder holds the config |
| EncFSMount.GetEnv | common/encfstools.py:154-162 | the environment gets `ENCFS6_CONFIG` exactly when the config file exists, and nothing else changes |
| EncFSMount.IsConfigured | common/encfstools.py:175-200 | an existing config is configured; otherwise not-found outside a temporary mount, cancel when the user declines, mismatch when the confirmation differs, and "create" when it matches |
| EncFSMount.CheckFuse | common/encfstools.py:202-220 | passes exactly when encfs is installed and, if the group `fuse` exists and is checked, the user belongs to it; each failure has its own error |
| EncFSMount.VersionSearch | common/encfstools.py:234 | `re.search(r'(\d\.\d\.\d)')`: the leftmost version-shaped text, or none anywhere |
| EncFSMount.CheckVersion | common/encfstools.py:222-237 | refuses exactly a reverse mount whose first found version is at most 1.7.2 |
| EncFSMount.FixedVersionAccepted | common/encfstools.py:235 | a first-found release from 1.7.3 on is accepted, reverse or not |
| EncFSMount.BuggyVersionRefused | common/encfstools.py:235-237 | a first-found release up to 1.7.2 is refused for a reverse mount |
| EncFSMount.LexTotal | common/encfstools.py:252 | the order used to sort backup names is total |
| EncFSMount.LexTrans | common/encfstools.py:252 | and transitive |
| EncFSMount.LexAntisym | common/encfstools.py:252 | and antisymmetric, so the head of the reversed listing is well defined |
| EncFSMount.Latest | common/encfstools.py:251-254 | the head of the reverse-sorted listing: a name of the folder that is at least every other |
| EncFSMount.LatestIsGreatest | common/encfstools.py:251-254 | any name that is at least all the others is that head |
| EncFSMount.BackupChoice | common/encfstools.py:239-266 | a backup is written exactly when the config exists and the folder is empty or the latest backup's md5 differs; its name is the config's basename, a dot and the time stamp |
| EncFSMount.BackupKeepsOthers | common/encfstools.py:239-266 | a backup never loses or alters another, and a written one holds the config's contents |
| EncFSMount.BackupIdempotent | common/encfstools.py:256-260 | right after a backup, a second run on the same config writes nothing, whatever the new time stamp |
| EncFSMount.MountOptions | common/encfstools.py:92-97 | `--reverse` exactly for a reverse mount, `--standard` exactly when no config exists yet, `-o ro` exactly when read-only, in that order |
| EncFSMount.MountCommand | common/encfstools.py:91-98 | `encfs --extpass=backintime-askpass`, the options, then the path and the mount point |
| EncFSMount.MountTrace | common/encfstools.py:86-113 | the password thread is started before encfs is spawned with the config environment |
| EncFSMount.BackupBeforeReturnCode | common/encfstools.py:107-111 | the backup is written after encfs ran and whatever it returned |
| EncFSMount.ThreadStoppedOnlyOnSuccess | common/encfstools.py:109-113 | the password thread is stopped exactly when encfs succeeded, as the last step |
| EncFSMount.PreMountCheck | common/encfstools.py:124-131 | `check_fuse` always and `check_version` on a first run; `True` when both pass, otherwise the first error |
| EncFSMount.EncFSMount.constructor | common/encfstools.py:44-60 | a mount records its settings and starts with an empty trace |
| EncFSMount.EncFSMount.BuildCommand | common/encfstools.py:91-98 | the list built by appending equals `MountCommand` |
| EncFSMount.EncFSMount.BackupConfig | common/encfstools.py:239-266 | `backup_config` writes exactly `BackupChoice`'s file, changes no other backup, and leaves the config alone |
| EncFSMount.EncFSMount.Mount | common/encfstools.py:79-113 | `_mount`: a failed `is_configured` raises its error after only the thread start; otherwise the command, the backup and the trace of `MountTrace`, and `CantMount` with the command and output exactly on a non-zero return |
| EncFSMount.EncFSMount.RunEncfs | common/encfstools.py:103-113 | the part after `is_configured`: spawn, backup, then error or thread stop by the return code |
| EncFSSSH.MountPlan | common/encfstools.py:294-330 | sshfs first, then the reverse mount of `/` and encfs last; without a config a temporary reverse mount and unmount come between, and the config copy exactly when one was produced |
| EncFSSSH.RunIsPrefix | common/encfstools.py:294-344 | the steps taken are a prefix of the plan; each is taken only after every earlier one succeeded, and the run stops early only at a step that raised |
| EncFSSSH.RunWhole | common/encfstools.py:294-344 | when no step raises, the whole plan runs |
| EncFSSSH.PlanSteps | common/encfstools.py:294-330 | which steps a mount plan holds, for each combination of config found or not |
| EncFSSSH.MountOrder | common/encfstools.py:294-330 | nothing is mounted before sshfs succeeded, and encfs only directly after the reverse mount of `/` succeeded |
| EncFSSSH.EncFSSSH.constructor | common/encfstools.py:274-292 | the composite mount records its arguments and starts with `Bounce` as translator |
| EncFSSSH.EncFSSSH.SplitKwargs | common/encfstools.py:355-401 | `split_kwargs`: the common arguments for every role, each role's remapped keys, and every other key copied unchanged |
| EncFSSSH.EncFSSSH.SplitSsh | common/encfstools.py:364-377 | the sshfs arguments: `ssh_path` as `path`, the ssh password, `hash_id_2` as `hash_id` |
| EncFSSSH.EncFSSSH.SshPath | common/encfstools.py:364-366 | `ssh_path` replaces `path` |
| EncFSSSH.EncFSSSH.SshLogin | common/encfstools.py:367-377 | the ssh password (from the keywords or the stored one) and the second hash id |
| EncFSSSH.EncFSSSH.SplitEncfs | common/encfstools.py:379-387 | the forward encfs arguments |
| EncFSSSH.EncFSSSH.SplitReverse | common/encfstools.py:389-401 | the reverse encfs arguments: `reverse`, path `/`, the config path, the encfs password and the first hash id |
| EncFSSSH.EncFSSSH.ReverseLogin | common/encfstools.py:393-401 | the encfs password (from the keywords or the stored one) and the first hash id |
| EncFSSSH.EncFSSSH.Do | common/encfstools.py:294-344 | one sub-mount or sub-unmount is recorded and reported as raising exactly when it fails |
| EncFSSSH.EncFSSSH.Mount | common/encfstools.py:294-330 | `mount` runs the plan until the first failure, succeeds exactly when no step of the plan fails, and installs `Encode` only then |
| EncFSSSH.EncFSSSH.MountSteps | common/encfstools.py:294-330 | the steps of `mount`, taken as `Run` of the plan |
| EncFSSSH.EncFSSSH.TempSteps | common/encfstools.py:302-320 | the temporary reverse mount that makes encfs write a config, and the copy of that config when there is one |
| EncFSSSH.EncFSSSH.LastSteps | common/encfstools.py:322-330 | the reverse mount of `/`, then encfs; the translator becomes `Encode` when both succeeded |
| EncFSSSH.EncFSSSH.Umount | common/encfstools.py:332-344 | `umount` closes the translator and installs `Bounce` first, then unmounts encfs, the reverse mount and sshfs, stopping at the first failure |
| EncFSSSH.EncFSSSH.UmountSteps | common/encfstools.py:332-344 | the steps of `umount`, taken as `Run` of the unmount plan |
| EncFSSSH.EncFSSSH.PreMountCheckAll | common/encfstools.py:346-353 | `False` exactly when the ssh check fails; otherwise the fuse error, the version error on a first run, or `True` |
| Tools.PreparePath | common/tools.py:416-428 | the result starts with one `/` and does not end with one, unless it is `/` |
| Tools.PreparePathOnlySlashes | common/tools.py:426-427 | only slashes at either end are removed: the input is the result's inner part framed by runs of `/` |
| Tools.PreparePathIdempotent | common/tools.py:416-428 | preparing a prepared path changes nothing |
| Tools.CheckCronPattern | common/tools.py:653-682 | a space rejects; a `*/` pattern is accepted exactly when the rest is a number up to 24; otherwise exactly when every comma-separated item is |
| Tools.AllCronItems | common/tools.py:675-680 | the loop over the items accepts exactly when every item is a number up to 24 |
| Tools.CronAcceptedAlphabet | common/tools.py:653-682 | an accepted pattern holds only digits and commas, or `*/` and digits |
| Tools.CronRejects | common/tools.py:667-679 | the empty pattern, `25`, `*/25`, `*/` and `1, 2` are rejected |
| Tools.CronAcceptsStep | common/tools.py:659 | the documented `*/6` is accepted |
| Tools.CronAcceptsList | common/tools.py:658 | a documented-style list `0,10,23` is accepted |
| Tools.Indicator | common/tools.py:916-917 | the indicator is dropped when it would not leave room on a line |
| Tools.FindDelimiter | common/tools.py:924-927 | the `for look` search: the highest delimiter position in the upper half, or none there |
| Tools.CutAsWritten | common/tools.py:924-929 | the source's cut: after the last delimiter in the upper half of the first `size` characters, else at `size` |
| Tools.WrapLineSizeZeroStuck | common/tools.py:915-930 | with `size` 0 the indicator is dropped and a step on a non-empty message yields `''` and keeps the whole message, so the source never ends |
| Tools.WrapLineLoopsForever | common/tools.py:915-930 | with the default indicator and size 12, a 15-letter word is cut into a message that `wrap_line` then hands back unchanged, so it never stops |
| Tools.WrapAsWritten | common/tools.py:918-930 | the source's generator run for a bounded number of turns: when it ends, no line is longer than `size`, and only the empty message gives no line |
| Tools.StuckStep | common/tools.py:924-930 | a message that starts with the indicator and that the source cuts inside the indicator is rebuilt at least as long and is cut inside the indicator again |
| Tools.StuckNeverEnds | common/tools.py:918-930 | from such a stuck message the source never ends, whatever the number of turns |
| Tools.WrapLineNeverEnds | common/tools.py:915-930 | with the default indicator and size 12, the source never ends on a plain 15-letter word |
| Tools.Cut | common/tools.py:924-929 | the corrected cut lies past the indicator on every message that starts with it, and it equals the source's cut on every message that is not stuck |
| Tools.AgreeStep | common/tools.py:924-930 | on a message that is not stuck, the corrected version cuts off the source's line and goes on with the source's rebuilt message |
| Tools.WrapAgrees | common/tools.py:915-930 | wherever the source's generator ends, the corrected lines are exactly the lines it yields |
| Tools.AgreeFromRest | common/tools.py:915-930 | one turn of the generator on a long message: if the two versions agree on the rebuilt message, they agree on the message, and a stuck message never ends |
| Tools.WrapLongIndicatorExample | common/tools.py:915-930 | with an indicator longer than half a line, `"xxxx yyyy"` at size 7 with indicator `abcde` gives `xxxx `, `abcdeyy`, `abcdeyy` in the source and in the corrected version alike |
| Tools.WrapStep | common/tools.py:926-930 | one turn: the line cut off, then a rebuilt message that starts with the indicator and is shorter whenever the old one started with it too |
| Tools.CutAgrees | common/tools.py:924-929 | the corrected cut equals the source's whenever the indicator fits in half a line plus one, as the default does |
| Tools.WrapBounds | common/tools.py:918-930 | every yielded line is non-empty and at most `size` long |
| Tools.WrapFirst | common/tools.py:918-930 | a message starting with the indicator yields a first line starting with it |
| Tools.WrapRejoin | common/tools.py:918-930 | every line after the first starts with the indicator, and taking it off and concatenating gives back the message |
| Tools.WrapProperties | common/tools.py:915-930 | line bounds, recovery of the message, and without an indicator the lines concatenate to the message |
| Tools.FindCut | common/tools.py:923-929 | the source's `for look` loop and its fallback, followed by the correction, compute the corrected cut |
| Tools.WrapLine | common/tools.py:915-930 | `wrap_line` with the corrected cut always ends. It yields the source's lines wherever the source ends (through `Tools.WrapAgrees`), each line within `size`, and the message can be recovered from them |
| Tools.CommandList.constructor | common/tools.py:1172 | the caller's command list, which `splitCommands` pops |
| Tools.Take | common/tools.py:1175-1176 | the inner loop takes at least one command exactly when the first one fits, and never more than there are |
| Tools.TakeFits | common/tools.py:1175-1177 | a chunk built by the inner loop, with its tail, is within the limit |
| Tools.TakeMaximal | common/tools.py:1175-1176 | the inner loop packs greedily: when it stops before the last command, the next command would not fit after the chunk so far |
| Tools.GroupsStep | common/tools.py:1172-1178 | one turn of the outer loop on a non-empty list takes at least one command, leaves a rest whose commands still fit, and closes the first chunk |
| Tools.TakeAll | common/tools.py:1175 | without a limit the inner loop takes everything |
| Tools.GroupsPartition | common/tools.py:1172-1178 | the chunks hold every command once, in order, and none is empty |
| Tools.ChunksWithinLimit | common/tools.py:1172-1178 | with a limit, every chunk with head, tail and the extra characters is within it |
| Tools.NoLimitOneChunk | common/tools.py:1172-1178 | without a limit there is one chunk |
| Tools.SplitCommands | common/tools.py:1172-1178 | `splitCommands` yields `head`, each group's commands and `tail`, in order, and empties the caller's list |
| Tools.SplitCommandsStuck | common/tools.py:1172-1178 | a first command that does not fit even after `head` alone is never popped: the turn yields `head + tail` and leaves the list as it was, so the source never ends |
| Tools.NextChunk | common/tools.py:1174-1178 | one turn of the outer loop pops the commands that fit and closes the chunk |
| Rsync.VersionMatch | common/tools.py:525 | `re.match(r'rsync\s*version\s*(\d\.\d)')`: only text starting with `rsync` matches, giving two digits |
| Rsync.VersionMatchExact | common/tools.py:525 | every `rsync`, whitespace, `version`, whitespace, `d.d` text is matched, with both digits |
| Rsync.CapsSpan | common/tools.py:531 | `.*Capabilities:(.+)\n\n.*` with DOTALL: the last `Capabilities:` label and, after it, the last blank line, or no match when there is no such pair |
| Rsync.StripBlank | common/tools.py:536 | `strip(' \n')`: neither end is a space or newline |
| Rsync.CapsClean | common/tools.py:521-537 | every capability is non-empty, stripped and comma-free; `progress2` is put first when the version is 3.1 or later; with no capabilities block the result is `["progress2"]` on 3.1 or later and empty otherwise |
| Rsync.GetRsyncCaps | common/tools.py:510-537 | `get_rsync_caps` reads the installed output only when no data is given, and computes the capability list |
| Rsync.BlockCaps | common/tools.py:535-536 | each line of the block split at commas, the stripped non-empty names kept in order |
| Rsync.IntText | common/tools.py:604-607 | `str(n)` / `%d`: the decimal digits of the number, with a minus sign when negative |
| Rsync.GetRsyncPrefix | common/tools.py:539-621 | `get_rsync_prefix` builds the prefix of the specification: launcher and `rsync -rtDHh` first, a trailing space last |
| Rsync.LocalOptions | common/tools.py:557-591 | the local options, in the source's order |
| Rsync.AppendLinkOptions | common/tools.py:563-572 | checksum, unsafe-links and `--copy-links` or `--links` |
| Rsync.AppendPermOptions | common/tools.py:574-585 | `-A` and `-X` when kept and supported, then the permission flags |
| Rsync.AppendSsh | common/tools.py:594-619 | the `--rsh` block with port, cipher and key, bandwidth limit and remote path |
| Rsync.AppendRemotePath | common/tools.py:612-619 | the `--rsync-path` with nice, ionice and nocache in that order |
| Rsync.PrefixShape | common/tools.py:556-621 | the command starts with the launcher and the fixed options and ends with a space |
| Rsync.PermsOverridden | common/tools.py:574-585 | keeping ACLs or extended attributes overrides `no_perms`: the command is the same either way and syncs permissions |
| Rsync.PermsChoice | common/tools.py:582-585 | `--no-p --no-g --no-o` exactly when `no_perms` holds and neither kind of attribute is kept, `-pEgo` otherwise |
| Rsync.LocalIgnoresSsh | common/tools.py:593-594 | outside the requested ssh modes the ssh settings play no part |
| History.PathHistory.Current | common/tools.py:1539-1571 | the current entry is one of the history |
| History.PathHistory.constructor | common/tools.py:1540-1542 | a history of the one path, current |
| History.PathHistory.Append | common/tools.py:1544-1547 | the forward entries are dropped, the path is put last and becomes current |
| History.PathHistory.Previous | common/tools.py:1549-1557 | one step back and its entry; at the oldest entry, that entry without a move |
| History.PathHistory.Next | common/tools.py:1559-1567 | one step forward and its entry; at the newest entry, that entry without a move |
| History.PathHistory.Reset | common/tools.py:1569-1571 | a history of the one path |
| History.BackAndForth | common/tools.py:1549-1567 | back then forward returns to the same entry and position |
| History.AppendThenNext | common/tools.py:1544-1567 | after `append`, `next` stays on the appended path |
| Ordered.AddTo | common/tools.py:1591-1595 | adding puts the key in, and a present key changes nothing |
| Ordered.Without | common/tools.py:1597-1601 | discarding takes exactly that key out |
| Ordered.Reverse | common/tools.py:1610-1615 | the reversed order |
| Ordered.AddAllDistinct | common/tools.py:1578-1583 | adding keys in turn keeps the order without repeats and holds exactly the old and the added keys |
| Ordered.WithoutAt | common/tools.py:1597-1601 | discarding a key cuts its position out; the others keep their order |
| Ordered.WithoutAbsent | common/tools.py:1597-1601 | discarding an absent key changes nothing |
| Ordered.DistinctCard | common/tools.py:1585-1586 | the length is the number of distinct keys |
| Ordered.OrderedSet.constructor | common/tools.py:1578-1583 | the set of the iterable's keys in first-seen order |
| Ordered.OrderedSet.UnionUpdate | common/tools.py:1583 | `self |= iterable`: each key added in turn |
| Ordered.OrderedSet.Len | common/tools.py:1585-1586 | `__len__` is the number of keys |
| Ordered.OrderedSet.Contains | common/tools.py:1588-1589 | `__contains__` is membership in the order |
| Ordered.OrderedSet.Add | common/tools.py:1591-1595 | `add` links a new key last, before the sentinel; a present key changes nothing |
| Ordered.OrderedSet.Discard | common/tools.py:1597-1601 | `discard` unlinks the key's cell; the rest keep their order |
| Ordered.OrderedSet.Elements | common/tools.py:1603-1608 | `__iter__` walks the keys first-added first |
| Ordered.OrderedSet.Reversed | common/tools.py:1610-1615 | `__reversed__` walks them last-added first |
| Ordered.OrderedSet.Pop | common/tools.py:1617-1622 | `pop` removes and returns the last key (the first when `last` is false), and raises `KeyError` on an empty set |
| Ordered.OrderedSet.Equals | common/tools.py:1629-1632 | against another `OrderedSet`: equal exactly with the same keys in the same order |
| Ordered.OrderedSet.EqualsSet | common/tools.py:1629-1632 | against any other collection: equal exactly with the same keys |

## Left out

- Encoding.LoopPieces and Encoding.ExcludeByPieces: the piecewise form (translated pieces joined with `/`) is proved only for a tool whose answers to the literal pieces are non-empty, relative and do not end in `/`, because `os.path.join` drops what came before an absolute part and adds no separator after a part ending in `/`; `Encoding.UntranslatableIff` and `Encoding.Encoder.Exclude` hold for every tool.
- The password side channel (`password_ipc.TempPasswordThread`, the FIFO and `ASKPASS_TEMP`) appears only as start and stop events; the thread itself is not modelled.
- Subprocesses are modelled by their observable exchange. `encfsctl` is the function `tool`; encfs, sshfs, `fusermount` and `rsync --version` are parameters (a return code, an output text, a set of failing steps). `subprocess`, `communicate()` and their I/O are not modelled.
- Return codes: `close()` calls `communicate()`, which sets `returncode`, so a `path()` after `close` takes the restart branch; `Channel.Pipe.Close` followed by `Channel.Pipe.Exchange` models that. The source never calls `poll()`, so an `encfsctl` that dies on its own is not noticed (the next write raises `BrokenPipeError`, or `readline` returns `''`); such a crash is not modelled.
- `Channel.Pipe.Exchange`, `Encoding.Encoder.Path` and `Decoding.Decoder.Path` take each query as one line. A query holding `'\n'` writes several lines but reads one answer, which puts every later answer out of step; that desynchronisation is not modelled.
- Logging and gettext translation of messages are left out. The German alternative of `_take_snapshot` is not part of this model; the English text is matched.
- The regular-expression engine is not modelled generally. Each pattern the core uses is modelled by what it matches. Pattern values from the configuration (ssh user, host, path) are matched literally; their regex metacharacters are not interpreted.
- `\s` in `get_rsync_caps` is modelled as six characters only (space, `\t`, `\n`, `\r`, `\v`, `\f`); Python's `\s` also matches the separators `\x1c`-`\x1f` and the Unicode spaces. `str.isdigit` and the regex `\d` (`EncFSMount.VersionAt`, `Rsync.VersionMatch`) are modelled as the ASCII digits; Python's also match other Unicode decimal digits.
- `Decoding.Decoder.CopyLine`: the text after the closing quote of a `cp -aRl` line is dropped, as `re.match` plus concatenation does. `Decoding.LogEcho` states that.
- `Decode(string=False)` works on `bytes`; the model only has strings, and `Decode.remote`'s `encode()` of the remote path is the identity.
- `Encoding.Encoder.constructor` requires non-empty paths: the source indexes `[-1]` and raises `IndexError` on empty ones, and that exception is not modelled.
- `EncFSSSH.EncFSSSH.PreMountCheckAll` takes the ssh check's verdict as a boolean; the sshfs check itself lives in `sshtools.py`, which is not part of this model.
- `EncFSSSH.EncFSSSH.SplitKwargs` models the three roles the source uses. The keys are modelled as text and the values as an opaque datatype.
- The sub-mounts of `EncFS_SSH` (sshfs, the reverse and forward encfs mounts, the config copy and the temporary mount) are steps that succeed or raise; what `mount.MountControl` does inside them is not part of this model.
- The file system is a map from path to contents, and the backup folder a map from name to contents. `tools.make_dirs`, `os.listdir` and `shutil.copy2` act on those maps.
- `datetime.now().strftime(...)` is a time-stamp parameter and `tools._get_md5sum_from_path` an md5 function parameter.
- The configuration object is a record of the values `get_rsync_prefix` reads. `get_rsync_caps()` inside `get_rsync_prefix` is the parameter `caps`.
- `PathHistory.previous` and `next` catch `IndexError`; with the index always on an entry those branches cannot run, so they are not modelled.
- `OrderedSet(iterable=None)` is modelled as an empty sequence. `__repr__` is left out. `__iter__` and `__reversed__` return the sequence the generator would yield.
- `UniquenessSet`, `Alarm`, `ShutDown`, `SetupUdev` and the other OS helpers of `tools.py` are outside the modelled core.
- Tools.SplitCommands and Tools.Groups require that every command fits after `head` on a chunk of its own. When one does not, the source never ends: it yields `head + tail` for ever without popping it (`Tools.SplitCommandsStuck`). That endless output is not modelled.
- Tools.WrapLine requires `size >= 1`. With `size` 0 and a non-empty message the source yields `''` for ever (`Tools.WrapLineSizeZeroStuck`); that endless output is not modelled.
- `EncFS_mount._umount` and `post_mount_check` (a `fusermount` call and a no-op) are not modelled.

## Findings

| source | as written | input that shows it | evidently intended | confidence | as-written member | corrected member |
|---|---|---|---|---|---|---|
| common/tools.py:924-929 | the delimiter search of `wrap_line` looks as low as `size//2 + 1`, which with the default `CONTINUE: ` indicator can fall inside the indicator itself; the cut then leaves the message unchanged | `wrap_line('a' * 15, size=12)`: the first line is `aaaaaaaaaaaa`, the message becomes `CONTINUE: aaa`, cut after its space at 9 and rebuilt as `CONTINUE: aaa`, so `CONTINUE: ` is yielded for ever (for each size from 12 to 17 a long enough word does the same, e.g. `'a' * 25` at size 17) | a cut that would fall inside the indicator of a message starting with it is made at `size` instead, so the generator always ends; the source never gets past such a cut, so wherever the source ends the lines are the same (`Tools.StuckNeverEnds`, `Tools.WrapAgrees`) | not executed | Tools.WrapLineLoopsForever | Tools.WrapLine |
