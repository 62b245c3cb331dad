# procfs process identity, modelled in Dafny

This project models capsule8's procfs helper, `pkg/sys/proc/proc.go`. The helper reads the per-process
files under `/proc` and turns their text into structured values:

- the NUL-delimited argument list of `cmdline`;
- the `id:controllers:path` records of `cgroup`, and from them the Docker container ID;
- the whitespace-separated fields of `stat`, read lazily by the `ProcessStatus` getters, which cache
  each value in a field with zero or the empty string meaning "not yet computed";
- a namespace-independent unique process identifier: the SHA-256 digest of the start stack and the
  start time, formatted as lower-case hexadecimal;
- the host boot ID, read once and trimmed of surrounding whitespace.

Layout:

- `go_types.dfy` holds the Go integer widths used by the source.
- `wrappers.dfy` holds `Option` and `Result`.
- `go_strings.dfy` models the `strings` functions the source calls: `Split`, `Fields`, `Trim` and
  `TrimSpace`. It also defines two helpers the source does not call. `TrimFunc` is the trim that
  `Trim` and `TrimSpace` are built on. `Join` is the inverse of `Split`, and the cgroup contracts are
  stated with it. `strings.HasPrefix` (proc.go:197) is the sequence prefix test `"/docker" <= path`
  in `Proc.IsDockerPath`.
- `go_strconv.dfy` models `strconv.ParseInt`, `ParseUint` and `Atoi`. This includes base 0: the
  `0x`/`0o`/`0b` prefixes, leading-`0` octal and `_` digit separators. It also holds the decimal
  formatting `%d`.
- `encoding.dfy` holds little-endian `uint64` bytes, as `binary.Write` writes them, and `%x` hex
  formatting.
- `proc.dfy` holds the core: module `Proc`.

Modelling choices:

- The file system is a value, `FileSystem(files)`, mapping each relative path to its text. A path that
  is absent from the map cannot be read.
- `glog.Fatalf`, `panic` and index-out-of-range panics become a `Failure` carrying a `Fatal` value.
- The package globals become a `PackageState` object: the default procfs handle, the boot ID and the
  flag of its once-guard.
- The loops of the source are methods with loop invariants. Each is proved equal to a function that
  states the same result as a whole; lemmas then state properties of that function.

The boot ID does not reach the hash. `UniqueID` passes `BootID()`, a Go `string`, to `binary.Write`
(proc.go:336). `binary.Write` only encodes fixed-size values, so that call returns an error, which is
discarded, and writes nothing. The bytes hashed are therefore the 8 little-endian bytes of the start
stack followed by those of the start time. The boot ID file is still read, and an unreadable boot ID
still aborts. The comment at proc.go:330-333 says the boot ID is part of the hash; the model follows
the code, not the comment.

A command name may hold a blank, and the kernel writes it into `stat` as it is. `strings.Fields`
(proc.go:240) then cuts the name in two. The command reads as its first word, and every later field
moves up by one place. The parent PID is then read from the state letter, which is fatal, and the start
time and start stack are read from the wrong fields. The model keeps this behaviour, and
`CommandWithBlankShifts` and `ParentPidOfBlankName` state it.

## Model

| member | source | states |
|---|---|---|
| Proc.NulArgsCharacterized | pkg/sys/proc/proc.go:113-129 | a list is the argument list read from the `cmdline` text exactly when it has these properties: its elements are non-empty and NUL-free; written back each followed by a NUL, they form a prefix of the text; and what follows that prefix is an empty segment or a tail with no NUL |
| Proc.ReadArgs | pkg/sys/proc/proc.go:115-127 | the `ReadString(0)` loop returns exactly the argument list `NulArgs` of the text |
| Proc.NulArgsExamples | pkg/sys/proc/proc.go:113-129 | `"ls\0-la\0"` gives `["ls", "-la"]`; empty text gives no arguments |
| Proc.NulArgsStopsAtEmpty | pkg/sys/proc/proc.go:122-126 | reading stops at the first empty segment: `"ls\0\0-la\0"` gives `["ls"]` |
| Proc.NulArgsDropsUnterminated | pkg/sys/proc/proc.go:117-120 | a last segment without its NUL is dropped: `"ls\0-la"` gives `["ls"]` |
| Proc.FileSystem.CommandLine | pkg/sys/proc/proc.go:102-130 | no arguments when `<pid>/cmdline` cannot be read, otherwise the argument list of its text |
| Proc.PidPathSplit | pkg/sys/proc/proc.go:107 | the first `/`-piece of a per-process path is the PID's decimal text, the rest is the file name's pieces, and the first piece reads back as the PID |
| Proc.PidPathInjective | pkg/sys/proc/proc.go:141 | two per-process paths are equal exactly when their PIDs and file names are |
| Proc.ScanLines | pkg/sys/proc/proc.go:149-151 | the scanned lines hold no newline and are the newline-separated pieces of the text, in order; the last piece is dropped exactly when it is empty |
| GoStrings.Split | pkg/sys/proc/proc.go:152 | there is at least one piece, and no piece holds the separator |
| GoStrings.JoinSplit | pkg/sys/proc/proc.go:160 | the pieces joined with the separator give back the text |
| GoStrings.SplitJoin | pkg/sys/proc/proc.go:198 | pieces without the separator, joined with it, split back into the same pieces |
| GoStrconv.Atoi | pkg/sys/proc/proc.go:153 | a result is a signed 64-bit integer |
| Proc.ParseCgroupLine | pkg/sys/proc/proc.go:151-162 | a first `:`-piece that `Atoi` rejects is fatal; fewer than three pieces panic at index `len(parts)`; on success the ID is `Atoi` of the first piece, there is at least one controller (`[""]` for an empty field), the controllers join back with `,` to the second piece, the path is the third piece, and the three pieces start the line |
| Proc.ParseCgroupLinesSpec | pkg/sys/proc/proc.go:147-167 | the cgroup text parses exactly when every line does; it then gives one record per line, in line order; otherwise it fails with the error of the first line that does not parse |
| Proc.ReadCgroupLines | pkg/sys/proc/proc.go:150-165 | the scanner loop returns exactly `ParseCgroupLines` of the lines |
| Proc.FileSystem.Cgroups | pkg/sys/proc/proc.go:140-168 | no records when `<pid>/cgroup` cannot be read, otherwise the records of its lines or the first line's fatal error |
| Proc.CgroupLineRoundTrip | pkg/sys/proc/proc.go:152-161 | a record with a 64-bit ID, at least one controller, and no `:` or `,` in its controllers and no `:` in its path is read back from its `id:controllers:path` line |
| Proc.CgroupPathStopsAtColon | pkg/sys/proc/proc.go:152-161 | text after a further `:` is not part of the path: the line of a record followed by `:` and anything parses to that record |
| Proc.DockerToken | pkg/sys/proc/proc.go:198-199 | the `/`-split of the path has fewer than three elements exactly when indexing element 2 panics, and otherwise the call succeeds; the token holds no `/`, follows the first two elements in the path, and is the whole third piece: the path ends with it or continues with `/` |
| Proc.DockerTokenOf | pkg/sys/proc/proc.go:197-199 | for `/docker/<token>` and for `/docker/<token>/<rest>` with no `/` in the token, the result is the token |
| Proc.DockerTokenShortPath | pkg/sys/proc/proc.go:198-199 | the path `/docker` alone panics with index 2 out of range for length 2 |
| Proc.FirstDocker | pkg/sys/proc/proc.go:196-197 | none exactly when no path starts with `/docker`; otherwise the position of the first such path, with no Docker path before it |
| Proc.ContainerIDOf | pkg/sys/proc/proc.go:193-204 | when no record's path starts with `/docker`, the result is `""`, and the search finds no Docker record exactly then; otherwise the result is the `DockerToken` of the first such record: its element 2, which may itself be empty (as for `/docker/`), or its panic |
| Proc.ContainerIDIgnoresLater | pkg/sys/proc/proc.go:196-200 | records after the first Docker record do not change the result |
| Proc.ScanForContainerID | pkg/sys/proc/proc.go:196-203 | the loop with its early return computes exactly `ContainerIDOf` |
| Proc.FileSystem.ContainerID | pkg/sys/proc/proc.go:193-204 | the fatal error of `Cgroups`, or `ContainerIDOf` its records; an unreadable cgroup file gives `""` |
| GoStrings.Fields | pkg/sys/proc/proc.go:240 | every status field is non-empty and holds no whitespace |
| GoStrings.FieldsConcat | pkg/sys/proc/proc.go:240 | the fields concatenated give the status text with all whitespace removed |
| GoStrings.FieldsOfJoin | pkg/sys/proc/proc.go:240 | non-empty, space-free tokens joined by single blanks, followed by any run of whitespace such as a closing newline, split back into those tokens |
| Proc.FileSystem.Stat | pkg/sys/proc/proc.go:233-242 | `null` when `<pid>/stat` cannot be read; otherwise a fresh record holding the `Fields` of the text and the given hash function, with nothing cached |
| Proc.ProcessStatus.PID | pkg/sys/proc/proc.go:256-268 | the result is token 0 parsed as a signed 32-bit number in base 0; a missing or malformed token is fatal; only `pid` changes, and it caches the result |
| Proc.ProcessStatus.Command | pkg/sys/proc/proc.go:272-278 | the result is token 1 trimmed of `(` and `)`; a missing token panics; only `comm` changes |
| Proc.ProcessStatus.ParentPID | pkg/sys/proc/proc.go:281-293 | the result is token 3 parsed as a signed 32-bit number; a missing or malformed token is fatal; only `ppid` changes |
| Proc.ProcessStatus.StartTime | pkg/sys/proc/proc.go:297-309 | the result is token 21 parsed as an unsigned 64-bit number; a missing or malformed token is fatal; only `startTime` changes |
| Proc.ProcessStatus.StartStack | pkg/sys/proc/proc.go:312-324 | the result is token 27 parsed as an unsigned 64-bit number; a missing or malformed token is fatal; only `startStack` changes |
| Proc.GettersAreStable | pkg/sys/proc/proc.go:256-324 | a second round of the five getters returns the same results as the first, and both are the parses of the status fields |
| GoStrings.Trim | pkg/sys/proc/proc.go:274 | the command is a contiguous slice of the token, every rune cut from either end is a parenthesis, and the result neither starts nor ends with one |
| Proc.CommandUnwrapped | pkg/sys/proc/proc.go:274 | any number of parentheses around a name that does not start or end with one are all removed |
| Proc.CommandLosesOwnParen | pkg/sys/proc/proc.go:274 | a name that ends in a parenthesis loses it: `(x))` is read as `x` |
| Proc.StatLineRoundTrip | pkg/sys/proc/proc.go:256-324 | a status line closed by a newline and written with decimal numbers and a parenthesised name is read back field for field by the five getters' parsers, provided the name holds no whitespace and neither starts nor ends with a parenthesis |
| Proc.CommandWithBlankShifts | pkg/sys/proc/proc.go:240 | for a name `a b` with one blank, `Fields` of the kernel's newline-closed line cuts the name into `(a` and `b)`: the command reads as `a`, and every field after the name moves up by one place |
| Proc.ParentPidOfBlankName | pkg/sys/proc/proc.go:283-287 | a state letter `S` in the parent PID's place is fatal |
| GoStrconv.ParseInt | pkg/sys/proc/proc.go:259 | a result lies in the signed range of the bit size, and the empty text is rejected |
| GoStrconv.ParseUint | pkg/sys/proc/proc.go:300 | a result lies below 2 to the bit size, and the empty text is rejected |
| GoStrconv.ParseIntRejectsLetter | pkg/sys/proc/proc.go:284 | a lone letter is no number in base 0 |
| GoStrconv.ParseIntFormat | pkg/sys/proc/proc.go:259 | the decimal text of an integer parses back in base 0 or 10 exactly when it fits the bit size |
| GoStrconv.ParseUintFormat | pkg/sys/proc/proc.go:300 | the decimal text of a natural number parses back in base 0 or 10 exactly when it fits the bit size |
| GoStrconv.ParseIntRejectsForeign | pkg/sys/proc/proc.go:259-262 | text holding a rune that is not a letter, digit or `_`, other than a leading sign, is rejected |
| GoStrconv.ParseIntDecimalExample | pkg/sys/proc/proc.go:259 | base 0 reads `42` as 42 |
| GoStrconv.ParseIntNegativeExample | pkg/sys/proc/proc.go:259 | base 0 reads `-17` as -17 |
| GoStrconv.ParseIntHexExample | pkg/sys/proc/proc.go:259 | base 0 reads `0x1f` as 31 |
| GoStrconv.ParseIntOctalExample | pkg/sys/proc/proc.go:259 | base 0 reads `010` as octal 8 |
| GoStrconv.ParseIntBinaryExample | pkg/sys/proc/proc.go:259 | base 0 reads `0b101` as 5 |
| GoStrconv.ParseIntErrorExamples | pkg/sys/proc/proc.go:259-262 | `0x` without digits, `08` and the empty text are rejected |
| Encoding.Uint64Bytes | pkg/sys/proc/proc.go:337-338 | a `uint64` is written as 8 bytes whose little-endian value is the number |
| Encoding.LittleEndianRoundTrip | pkg/sys/proc/proc.go:337-338 | reading back `n` little-endian bytes of a number below 256^n gives the number |
| Encoding.Uint64BytesInjective | pkg/sys/proc/proc.go:337-338 | distinct numbers are written as distinct bytes |
| Proc.HashInput | pkg/sys/proc/proc.go:336-338 | the hash input is 16 bytes: the start stack, then the start time, little-endian |
| Proc.HashInputInjective | pkg/sys/proc/proc.go:336-338 | distinct (start stack, start time) pairs give distinct hash inputs |
| Encoding.Hex | pkg/sys/proc/proc.go:340 | `%x` gives two lower-case hex digits per byte |
| Encoding.HexRoundTrip | pkg/sys/proc/proc.go:340 | decoding the hex text gives the bytes back |
| Encoding.HexInjective | pkg/sys/proc/proc.go:340 | distinct byte strings have distinct hex texts |
| Proc.IdentityToken | pkg/sys/proc/proc.go:334-340 | the token is 64 lower-case hex digits that decode to the digest of the hash input |
| Proc.IdentityTokenFaithful | pkg/sys/proc/proc.go:340 | two tokens are equal exactly when their digests are |
| Proc.UniqueIDOf | pkg/sys/proc/proc.go:328-344 | an unreadable boot ID is fatal; success exactly when the boot ID is readable and the start stack and start time parse; the token is 64 hex digits decoding to the digest of their hash input |
| Proc.ProcessStatus.WriteStatValues | pkg/sys/proc/proc.go:337-338 | the two writes give the hash input of the parsed start stack and start time, or the first parse failure; a success leaves both values cached |
| Proc.ProcessStatus.HashIdentity | pkg/sys/proc/proc.go:334-340 | fetching the boot ID, writing the start stack and then the start time, and formatting the digest gives `UniqueIDOf`; a success leaves the boot ID, the start stack and the start time cached, and the token is that of the cached values; the boot ID file is read only when it was not cached |
| Proc.ProcessStatus.UniqueID | pkg/sys/proc/proc.go:328-344 | a cached token is returned unchanged with nothing read; otherwise the result is `UniqueIDOf`, the boot ID file is read only when it was not cached, and a success leaves the boot ID cached; after any success the cached token is the identity token of the parsed start stack and start time, both cached too |
| Proc.UniqueIDIsStable | pkg/sys/proc/proc.go:328-344 | a second call returns what the first returned, a token or a failure |
| Proc.FileSystem.UniqueID | pkg/sys/proc/proc.go:214-221 | `""` with no state change when `<pid>/stat` cannot be read; otherwise `UniqueIDOf` the fields of its text, the boot ID file is read only when it was not cached, and a success leaves the boot ID cached |
| GoStrings.TrimSpaceTrims | pkg/sys/proc/proc.go:354 | the trimmed boot ID is a slice of the text with only whitespace around it, and it neither starts nor ends with whitespace |
| Proc.PackageState.BootID | pkg/sys/proc/proc.go:347-358 | the result is the trimmed boot ID text, or fatal when the file cannot be read; the file is read once on a call that finds nothing cached and not at all otherwise; a cached value never changes |
| Proc.BootIDIsStable | pkg/sys/proc/proc.go:347-358 | two calls return the same result, and after a success the file has been read at most once |

## Left out

- `FS()` is left out: its checks that `/proc` exists, is a directory and that `/proc/self` names the running process are system I/O (proc.go:34-70). `PackageState.procFS` stands for the handle it returns.
- The package-level wrappers (`CommandLine(pid)`, `Cgroups(pid)`, … proc.go:96-98, 134-136, 186-188, 208-210, 226-228) are left out. Each only calls the `FileSystem` method on `FS()`.
- `Open` and `ReadFile` (proc.go:78-92) are left out as file I/O. A read is a lookup in `FileSystem.files`.
- The file contents are a `string` of runes, so invalid UTF-8 and byte-level decoding are not modelled.
- `sync.Once` under concurrent callers is not modelled. `PackageState.bootIDDone` is the once flag of a single caller. After a panic in `BootID` the model leaves the flag clear; in Go, `Once` would count that call as done. The panic ends the process, so no later call can observe the difference.
- SHA-256 is a function `sha256: seq<byte> -> Digest` that returns 32 bytes. `FileSystem.Stat` receives it, and each status record keeps it as a constant. Its internals are not modelled.
- `binary.Write` is modelled only by the bytes it writes. Its reflection and its error values are not modelled.
- `glog` messages are not modelled; each fatal path is a distinct `Fatal` value.
- Proc.ScanLines: does not strip a trailing `\r` from a line and has no 64 KiB line limit, both of which `bufio.Scanner` has.
- GoStrconv.Atoi: Go's `int` is taken as 64 bits. On a 32-bit platform `Atoi` rejects cgroup IDs of 2^31 or more, and the model does not capture that.
- GoStrconv.ParseInt: the range error and the syntax error collapse into one failure, because the source treats both as fatal.
- Go's `nil` slice and its empty slice are one value, `[]`, in the model. `CommandLine` and `Cgroups` return `nil` whenever nothing is appended (proc.go:113, 147), so nothing is lost.
