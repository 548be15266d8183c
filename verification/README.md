# Agent Runtime Proof, verified

Agent Runtime Proof decides whether a live process is the approved artifact. Every step of that
decision reads a world that other programs keep changing. This project models the steps in Dafny
and proves what a result is worth; `dafny verify dfyconfig.toml` checks all of it.

## How the world is modelled

`Kernel` gives the file system and the process table at every instant (`nat -> Disk`,
`nat -> Processes`). Each system call happens at some later instant of its own, so any number of
foreign changes fit between two calls, and between the parts of one slow call. What is assumed is
stated as predicates:

- `LawfulDisks`: whoever changes an inode, or reuses its number, leaves a (size, mtime, change token,
  identity) tuple that identity never showed before; a live inode keeps its kind.
- `LawfulProcesses`: a (PID, creation time) pair that ended never comes back.
- `LawfulLibrary`, `LawfulNaming`, `InjectiveHash`, `LawfulNames`: NFC is idempotent on names, hashes
  are injective, a followed path is not empty. SHA-256, NFC and `path.Match` are otherwise arbitrary.
- `SinglyLinkedDirectories`: no directory below the root has a second name, since the kernel refuses hard
  links to directories. Only the equivalences for an undisturbed run need it; soundness does not.

The field `faults` counts I/O errors, denials, cancellations and passed deadlines, so that "it failed
although nothing happened" can be said. `free` counts file descriptors; it is also why the walk ends.

## Main results

- **The tree digest is an atomic snapshot** (`TreeDigest.DigestDirectory`, `ArtifactDigest.Digest`).
  Whatever others do meanwhile, success names one instant of the call at which the tree was exactly what
  was returned. It takes the second stat of each hashed file and the second pass; the re-checks of
  children and of each directory's own state during the walk are not needed for it. On a tree nobody
  touches, success is equivalent to `Acceptable`, and the code of a failure is true of what is there
  (`ArtifactDigest.Explained`).
- **The digest determines the tree** (`ArtifactIdentity.DigestDeterminesTree`), through the injectivity of
  the canonical printer, and canonical encoding cannot fail there.
- **MATCHED is sound and complete** (`Service.Service.Verify`, `Service.Service.ApprovedExactly`): sound over
  all interleavings with starts, exits, execs, PID reuse and file changes; and when nothing interferes it is
  reported exactly for a process that runs the approved artifact. STALE, LEAKED and NOT_RUNNING are
  warranted too, CONFLICT is exactly an ambiguous binding, and every other outcome has its exact condition
  (`Evaluator`).
- **No orphan** (`Guardian.NoOrphan`), for a target that keeps forking and an owner that dies anywhere; and the
  guardian comes to its end by itself (`GuardianProgress`), no phase of a start being stuck (`GuardianStart`).
- **The strict decoder reads exactly what tokens spell**, each key once (`Spelling.DecodesExactly`); with it
  the **canonical JSON round trip** (`RoundTrip`), and the bounded decoder as a refinement of the strict one
  (`BoundedDecoding`).
- **Canonical text is the shortest document** that decodes to its value, lower-case hex and no blanks (`Shortest`),
  by a grammar of texts, numbers and tokens that does not mention the lexer (`Lexemes`).
- **Receipts are published once and for all** (`ReceiptStore`), with any number of writers and crashes, and each
  call is done after a bounded number of its own steps (`ReceiptProgress`).
- **Escalation** (`RunLoop.Run`): the group is sent exactly what the events call for up to the guardian's end,
  a kill at the first tick past the grace period included, however the run ends; and a run that returns leaves
  nobody (`WitnessRun.RunWitness`).
- **Glob semantics** (`Selection`), **order-free merging** (`Bindings`, `ServerMap`), **matching of configured
  servers** (`BindingMeaning`), **containment** (`CleanPaths`, `CleanMeaning`, `Expectations`).

Where a property is false of the code, the exact condition is proved beside it:

- `Evaluate` and the validator agree exactly on `Presentable` inputs, and a reason code is repeated
  exactly when, without an expectation, host and process both report a missing process
  (`ProofSemantics`, with an input for each way to fail). The service never passes such inputs.
- `Verify` and `Inspect` cannot build every proof: the schema bounds an attributed binding's ID by 128
  characters, the parser only the server name in it. The proof is built exactly if the attribution fits
  (`Service.Build`, `Service.Service.Verify`, `InspectBinding`, `InspectHost`), for a catalogued host exactly
  if host ID, dot and server name have at most 128 characters (`HostAttribution.BindingFitsExactly`, with an
  input in `LongServerName`). One longer server name makes the inspection of its whole host fail.
- Equivalent bindings need not be equal: two hints that differ only in the command are merged to
  whichever came first. The merge is order-free exactly when the bindings are refused anyway, or an ID
  names one binding (`Bindings.OrderFreeExactly`); parsers that read server maps guarantee that within a document.
- A failed `Start` leaves a live target in one case only: the whole configuration was written and closing
  the pipe reported an error (`Guardian.CleanFailureExactly`).
- A guardian whose owner died need not come to its end: it waits for the target, and on Linux for every
  descendant, and one that left the group is not killed. It ends by itself exactly if no such process is alive
  (`GuardianProgress.EndsExactly`, with a state that is reached in `EscapedHoldsUp`); the group is killed either
  way (`GroupIsKilled`).
- docs/data-handling.md (lines 35 to 39) says that an interpreter launch is not promoted to STALE; the
  evaluator tests the digest before the launch kind, so it can be (`Evaluator.InterpreterCanBeStale`).
  MATCHED and LEAKED imply a native launch, STALE does not.

## Files

| area | files |
|---|---|
| shared | `Basics`, `LexOrder`, `Utf8`, `Decisions`, `Observations`, `Kernel` |
| artifact | `Selection`, `FileDigest`, `TreeSpec`, `WalkPromise`, `TreeAcceptance`, `TreeWalk`, `TreeDigest`, `ArtifactIdentity`, `TreeText`, `ArtifactDigest` |
| JSON | `KeyOrder`, `Json`, `Integers`, `Canonical`, `JsonLexer`, `StrictDecoder`, `Spelling`, `RoundTrip`, `Lexemes`, `Shortest`, `BoundedDecoding` |
| verdict | `CleanPaths`, `CleanMeaning`, `Expectations`, `Evaluator`, `ProofSemantics`, `ProcessObserver`, `Bindings`, `ServerMap`, `HostAttribution`, `BindingMeaning`, `Service` |
| witness and store | `Guardian`, `GuardianProgress`, `GuardianStart`, `RunLoop`, `WitnessRun`, `ContentIdentity`, `ReceiptStore`, `ReceiptProgress` |

Where the program steps through time or updates fields, the model is a method or a class, proved
against predicates over the instants; where it computes, a function. `hide` statements keep
definitions a proof does not need from the solver.

## Model

| member | source | states |
|---|---|---|
| `Kernel.EqualStatesPin` | internal/artifact/digest.go:156-164 | A size, time, change token and identity seen twice mean that the inode was the same, untouched, at every instant in between |
| `Kernel.KindIsStable` | internal/artifact/digest_secure_unix.go:150-174 | An inode that never disappears keeps its kind, so an unselected file that was stat'ed once is still a regular file later |
| `Kernel.SameBirthLives` | internal/process/process.go:18-26 | A process identity seen at two instants was alive at every instant between them |
| `Kernel.World.OpenChild` | internal/artifact/digest_secure_unix.go:64-73 | Opening one name without following links finds what the directory holds at the instant of the call; links are rejected, and any other outcome is counted as a fault |
| `Kernel.World.OpenDirectory` | internal/artifact/digest_secure_unix.go:44-58 | The same with O_DIRECTORY, as for all but the last component of the root path |
| `Kernel.World.ReadDir` | internal/artifact/digest_secure_unix.go:123-127 | Listing a directory is exact only if nobody touched it meanwhile |
| `Kernel.World.Read` | internal/artifact/digest.go:123-137 | A read returns some bytes at the offset, cut anywhere, and is exact only if nobody touched the file meanwhile |
| `FileDigest.CheckActive` | internal/artifact/digest.go:178-186 | Failing means cancellation or a passed deadline, each with its code, and time may pass either way |
| `FileDigest.ReadAll` | internal/artifact/digest.go:114-138 | What is hashed is the concatenation of exactly the pieces the reads returned, never more than max_bytes, without overflow, and on an untouched file its content however the reads cut it; undisturbed it refuses exactly a file that is too large |
| `FileDigest.DigestOpenedFile` | internal/artifact/digest.go:106-150 | Success means one regular file, the same at the last instant as at the first, whose bytes were hashed and whose size is the number of bytes hashed; failure means a fault, a change, or that the code is true of the file: another type, or too many bytes |
| `Selection.Includes` | internal/expectation/match.go:8-28 | A path is selected when some include pattern matches and no exclude pattern does, as the next row says what matching is |
| `Selection.SelectedExactly` | internal/expectation/match.go:8-80 | Selected is exactly a relative slash path along which some valid include pattern can be laid out and no valid exclude pattern can: a run of segments for each "**", one matching segment for everything else |
| `Selection.MatchMeansLayout` | internal/expectation/match.go:65-80 | Matching means exactly that each "**" takes a possibly empty run of segments and every other pattern segment takes one segment it matches |
| `Selection.MatchConcat` | internal/expectation/match.go:65-80 | A pattern followed by another matches exactly the candidates that split into a part for each |
| `Selection.AdjacentDoubleStars` | internal/expectation/match.go:69-75 | "**" beside "**" matches what one "**" matches |
| `TreeSpec.ResolveSplit` | internal/artifact/digest_secure_unix.go:224-242 | Following a path is following its first part and then the rest |
| `TreeSpec.CoverDirectory` | internal/artifact/digest_secure_unix.go:150-165 | A covered child directory, noted in its parent, covers its own name there |
| `TreeSpec.CoverFile` | internal/artifact/digest_secure_unix.go:167-203 | A regular file is covered by one entry if selected and by none otherwise, and has nothing below it |
| `WalkPromise.ChildStays` | internal/artifact/digest_secure_unix.go:132-135 | A name looked up in a directory that stays as it was leads to the same inode later |
| `WalkPromise.DeliversDirectory` | internal/artifact/digest_secure_unix.go:150-165 | A walked child directory whose noted state still shows is covered, at whatever later instant that is |
| `WalkPromise.DeliversFile` | internal/artifact/digest_secure_unix.go:184-202 | A hashed file whose noted state still shows has exactly its recorded path, hash and size at that instant |
| `WalkPromise.DeliversIgnored` | internal/artifact/digest_secure_unix.go:171-174 | An unselected regular file needs no record: nothing else can be under its name while its directory is unchanged |
| `WalkPromise.DeliversListing` | internal/artifact/digest_secure_unix.go:119-128 | If the directory is unchanged its listing was exact, so the names visited are all there are |
| `WalkPromise.DeliversUnion` | internal/artifact/digest_secure_unix.go:128-203 | What two sets of names deliver, their union delivers |
| `TreeWalk.Walker.VerifyPinnedChild` | internal/artifact/digest_secure_unix.go:244-255 | The re-check of a child succeeds only if at an instant of the call the name led to the expected inode and its state showed, and fails only after a fault, or if at some instant it did not |
| `TreeWalk.Walker.Claim` | internal/artifact/digest_secure_unix.go:175-187 | A key is claimed once, and the file and byte limits are tested before any byte is read; a refusal says which of the two it was |
| `TreeWalk.Walker.Append` | internal/artifact/digest_secure_unix.go:196-202 | The totals, the entry, the record and the entrypoint identity advance together and stay consistent |
| `TreeWalk.Walker.HashChild` | internal/artifact/digest_secure_unix.go:188-195 | The child's bytes were hashed within the remaining budget, and an undisturbed failure means the child was not what was looked up, or too large |
| `TreeWalk.Walker.Enter` | internal/artifact/digest_secure_unix.go:129-140 | What was opened and stat'ed is the inode the name led to; an undisturbed failure means the name cannot be opened, with the code for a link or for anything else |
| `TreeWalk.Walker.Record` | internal/artifact/digest_secure_unix.go:175-202 | A recorded file delivers its name at every later instant at which its state shows; undisturbed, a refusal's code is true of the tree: two selected files with one normal form, or files over a limit |
| `TreeWalk.Walker.Visit` | internal/artifact/digest_secure_unix.go:129-203 | The same for any one directory entry, whatever its kind: a link or a special file there is what those codes mean |
| `TreeWalk.Walker.Descend` | internal/artifact/digest_secure_unix.go:151-161 | The child directory's state is noted first and everything walked below it is delivered |
| `TreeWalk.Walker.VisitDirectory` | internal/artifact/digest_secure_unix.go:150-166 | A child directory with everything below it is delivered to its parent |
| `TreeWalk.Walker.VisitAll` | internal/artifact/digest_secure_unix.go:128-203 | All listed names are delivered, in whatever order they come |
| `TreeWalk.Walker.WalkPinnedDirectory` | internal/artifact/digest_secure_unix.go:118-209 | A finished walk delivers the whole directory, at every later instant at which all its records show; undisturbed it fails only with a code that is true of the tree |
| `TreeAcceptance.ObjectionRefuses` | internal/artifact/digest_secure_unix.go:167-187 | Each reason the first pass can have to refuse a tree rules out acceptability |
| `TreeAcceptance.SuccessIsNormal` | internal/artifact/digest_secure_unix.go:141-149 | On a disk that stands still, a tree that passes both passes has every directory and selected file under a name in normal form |
| `TreeAcceptance.SuccessAccepts` | internal/artifact/digest_secure_unix.go:95-116 | On a disk that stands still, a tree that passes both passes is acceptable |
| `TreeDigest.VerifyRelativeSnapshot` | internal/artifact/digest_secure_unix.go:211-242 | Success means the noted state showed at an instant of the call; undisturbed, failure means the path no longer leads to that state |
| `TreeDigest.VerifySnapshots` | internal/artifact/digest_secure_unix.go:109-113 | Success means every noted state showed at an instant after the walk |
| `TreeDigest.SecondPassPins` | internal/artifact/digest_secure_unix.go:104-113 | States noted in the walk and seen again in the second pass all showed at the instant between the two |
| `TreeDigest.SortEntries` | internal/artifact/digest_secure_unix.go:114 | Strictly ascending paths, the same entries, the same total |
| `TreeDigest.DigestDirectory` | internal/artifact/digest_secure_unix.go:95-116 | Success names one instant of the call at which the tree held nothing but directories and regular files and its selected files were exactly the sorted result; undisturbed, it succeeds exactly on acceptable trees, and a failure's code is true of the tree: a link, a special file, a clash of names, files over a limit, or a name not in normal form |
| `ArtifactIdentity.ExactTreeIsUnique` | internal/artifact/digest_secure_unix.go:114-115 | At one instant there is only one sorted exact result, so the order of the walk cannot show |
| `ArtifactIdentity.ArtifactIsUnique` | internal/artifact/digest.go:46-104 | At one instant there is only one observation to make of a root |
| `ArtifactIdentity.ExactTreePrintable` | internal/artifact/digest.go:95-98 | Whatever the walk returns, `canonical.Marshal` cannot fail on it: every size is a safe integer, since max_bytes is at most 1099511627776 |
| `TreeText.TreePrints` | internal/artifact/digest.go:95-99 | The text that is hashed, character by character: one object for each entry with path, hash and size in this order, and nothing else |
| `ArtifactIdentity.TreeShaInjective` | internal/artifact/digest.go:95-99 | Equal digests come from equal entry lists |
| `ArtifactIdentity.ExactTreeDescribes` | internal/artifact/digest.go:85-95 | The walk's list has the path and hash of every selected file and of nothing else |
| `ArtifactIdentity.DigestDeterminesTree` | internal/artifact/digest.go:95-103 | Two directory roots with equal digests, at whatever instants, hold the same selected paths with the same contents |
| `ArtifactIdentity.ObservationDeterminesTree` | internal/artifact/digest.go:85-103 | The same in terms of the observations returned, whose counts are then equal too |
| `ArtifactDigest.OpenArtifactRoot` | internal/artifact/digest_secure_unix.go:30-62 | The handle was reached from "/" component by component, each at an instant of its own, in order; undisturbed the outcome is what the path leads to, links and non-directories included |
| `ArtifactDigest.VerifyArtifactPath` | internal/artifact/digest_secure_unix.go:82-93 | Success means the path was followed again to the same inode in the same state |
| `ArtifactDigest.HashEntries` | internal/artifact/digest.go:95-99 | The digest is the hash of the UTF-8 canonical text; it fails exactly on an unprintable list |
| `ArtifactDigest.DigestFile` | internal/artifact/digest.go:68-80 | A single-file root: the raw hash of its bytes at one instant; undisturbed it succeeds exactly on a regular file within the limits |
| `ArtifactDigest.DigestTree` | internal/artifact/digest.go:85-103 | A directory root: the tree digest at one instant; EXPECTATION_INVALID means that nothing was selected, and nothing else |
| `ArtifactDigest.Digest` | internal/artifact/digest.go:46-104 | A result was exact at one instant, under a root the path led to both before and after it; undisturbed, the call succeeds exactly on digestible roots, and a failure's code says truly what is there instead |
| `KeyOrder.KeyLessIsRankOrder` | internal/canonical/canonical.go:138-140 | Comparing UTF-16 code units is comparing the first differing scalars, with the supplementary planes ordered between U+D7FF and U+E000 (RFC 8785 section 3.2.3) |
| `LexOrder.LessMeansFirstDifference` | internal/canonical/canonical.go:138-140 | Lexicographic order is decided at the first difference, or by the length of a prefix |
| `KeyOrder.KeyOrderIsTotal` | internal/canonical/canonical.go:138-140 | The key comparison is a strict total order, equal only on identical texts |
| `KeyOrder.SortKeys` | internal/canonical/canonical.go:66-70 | Whatever order the map hands out its keys in, sorting gives the one ascending listing |
| `Integers.AcceptedIntegers` | internal/canonical/canonical.go:91-104 | Exactly the shortest decimal spellings of the integers within 2^53-1 are accepted, and written as they are |
| `Lexemes.TextExactly` | internal/contract/validator.go:161-170 | A string is read exactly where what stands before its closing quote spells it, by the grammar of RFC 8259 section 7 |
| `Lexemes.NumberExactly` | internal/contract/validator.go:166-170 | A number is read exactly up to the longest cut that RFC 8259 section 6 allows there |
| `Lexemes.LexExactly` | internal/contract/validator.go:148-159 | A document lexes to tokens exactly if it is written as their lexemes with blanks between them, no number running on into the next |
| `Canonical.AppendString` | internal/canonical/canonical.go:106-136 | The text is written between quotes with each character escaped as RFC 8785 section 3.2.2.2 says, which is its shortest spelling |
| `Canonical.AppendValue` | internal/canonical/canonical.go:40-89 | It succeeds exactly on values whose numbers are safe integers, and then writes one text determined by the value, in whatever order maps are iterated |
| `Canonical.AppendMembers` | internal/canonical/canonical.go:65-84 | Object members are written in ascending key order, whatever the map's order |
| `Shortest.ShortestText` | internal/canonical/canonical.go:106-136 | Whatever spells a text is at least as long as what is printed for it, and equally long only if it is the same up to the case of hex digits, which are printed lower-case |
| `Shortest.NoBlanks` | internal/canonical/canonical.go:40-89 | The printed text of a value is its tokens one after the other with nothing in between |
| `Shortest.ShortestDocument` | internal/canonical/canonical.go:18-38 | No document that strictly decodes to a value is shorter than its canonical text |
| `Shortest.DocumentExactly` | internal/contract/validator.go:148-159 | A document decodes to a value exactly if it is written as the lexemes of tokens that spell it |
| `StrictDecoder.DecodeValue` | internal/contract/validator.go:161-213 | The token loop returns exactly what the grammar with unique keys gives, and leaves the tokens after it |
| `StrictDecoder.DecodeObject` | internal/contract/validator.go:171-195 | The object loop: commas, keys not seen before, colons, values and the closing brace |
| `StrictDecoder.DecodeArray` | internal/contract/validator.go:196-210 | The array loop, refusing a missing or trailing comma |
| `Spelling.DecodesExactly` | internal/contract/validator.go:161-213 | The decoder reads a value and leaves a rest exactly where the tokens before the rest spell the value, each key once, members in any order |
| `Spelling.SpellsOneValue` | internal/contract/validator.go:161-213 | No tokens spell two values |
| `Spelling.AcceptsExactly` | internal/contract/validator.go:148-159 | A document is accepted as a value exactly if it lexes and all its tokens together spell that value |
| `RoundTrip.DecodePrint` | internal/contract/validator.go:148-159 | Strictly decoding what was printed gives the value back, for every printable value |
| `RoundTrip.PrintInjective` | internal/canonical/canonical.go:18-38 | Two values print alike exactly when they are equal, so neither member order nor anything else can make two contents coincide |
| `RoundTrip.PrintDecode` | internal/canonical/canonical.go:18-38 | Printing a decoded canonical document again is the identity |
| `RoundTrip.PrintLexes` | internal/canonical/canonical.go:40-89 | The tokens of a printed value, followed by anything that cannot extend a number |
| `RoundTrip.TokensSpell` | internal/canonical/canonical.go:40-89 | What is printed is one of the spellings of the value |
| `RoundTrip.TokensDecode` | internal/contract/validator.go:161-213 | Those tokens decode to the value, leaving the rest |
| `BoundedDecoding.ValidateTree` | internal/hostprofile/parse.go:371-398 | In whatever order maps are iterated, a tree is accepted exactly when no value lies deeper than 128, there are at most 4096 values, and no text or key is longer than 8192 bytes; the counter advances by the number of values |
| `BoundedDecoding.DecodeBoundedValue` | internal/hostprofile/parse.go:310-369 | The bounded decoder returns the strict decoder's value and leaves the same tokens, unless that value is out of bounds |
| `BoundedDecoding.DecodeStrictJSON` | internal/hostprofile/parse.go:296-308 | It accepts exactly the documents the strict decoder accepts with a tree within the bounds, and returns that tree |
| `BoundedDecoding.DecodeTwice` | internal/hostprofile/parse.go:296-398 | Bounded decoding is strict decoding followed by validation of the tree |
| `BoundedDecoding.PartFits` | internal/hostprofile/parse.go:378-386 | An object's part fits wherever the whole object fits, so the order of the entries cannot decide |
| `BoundedDecoding.GrownPlaces` | internal/hostprofile/parse.go:371-386 | One more child adds exactly the number of values inside it to the count |
| `BoundedDecoding.ObjectKeepsPart` | internal/hostprofile/parse.go:328-353 | What the object loop still has to read cannot make up for a part that is out of bounds |
| `Utf8.EncodeInjective` | internal/canonical/canonical.go:107-109 | Different texts have different bytes |
| `Utf8.EncodeCharExactly` | internal/canonical/canonical.go:106-136 | The bytes written for a scalar are the shortest sequence that stands for it (RFC 3629 section 3) |
| `Utf8.BytesCompareLikeScalars` | internal/artifact/digest.go:95 | Comparing the UTF-8 bytes of two texts, as the sort of the entries does, is comparing their scalars |
| `Bindings.EquivalentMeansEqual` | internal/hostprofile/discovery.go:164-174 | Equivalent bindings of one host are equal, but for the basename of a command that is only a hint |
| `Bindings.ComparingWithFirst` | internal/hostprofile/discovery.go:99-108 | Comparing each binding with the first one of its ID is comparing all pairs: equivalence is transitive and symmetric |
| `Bindings.OrderFreeExactly` | internal/hostprofile/discovery.go:99-114 | Every arrangement of the bindings has the same outcome, a refusal or the same merged bindings, if and only if they are refused anyway or no ID names two different ones |
| `Bindings.RefusedInAnyOrder` | internal/hostprofile/discovery.go:99-108 | Bindings that cannot be merged are refused in every order |
| `Bindings.HintsDependOnOrder` | internal/hostprofile/discovery.go:164-174 | Equivalence alone is not enough: two hints that differ in their command are equivalent, and the first one wins |
| `Bindings.MergeIsOrderFree` | internal/hostprofile/discovery.go:80-115 | Document by document in any order, with no ID twice in a document, the merge succeeds alike and its result is the same |
| `Bindings.Discover` | internal/hostprofile/discovery.go:80-116 | With usable sources and no cancellation it succeeds exactly when bindings sharing an ID are pairwise equivalent, and returns each as first seen, sorted, without duplicates; a failure has the code of the first document that cannot be read, parsed or merged |
| `Bindings.Merge` | internal/hostprofile/discovery.go:99-108 | One document's bindings into the map: success keeps the map the first of each ID, failure means two bindings with one ID differ |
| `Bindings.Match` | internal/hostprofile/binding.go:50-72 | A bound binding gets a candidate only if it is the only one with that path and those arguments; several are ambiguous, none is not running |
| `BindingMeaning.MatchExactly` | internal/hostprofile/binding.go:50-88 | For servers as configured and command lines as started: a bound server gets the one process whose cleaned path is its cleaned command and whose arguments are its arguments; none is not running, several are ambiguous |
| `BindingMeaning.EquivalentExactly` | internal/hostprofile/discovery.go:164-174 | Two bindings are equivalent exactly if they have one ID, come from one document, and have the same arguments and the same cleaned absolute command, or both none |
| `BindingMeaning.ServerAttributed` | internal/hostprofile/binding.go:27-48 | The binding made of a configured server is attributed to its host under host and server name, bound exactly if the command is absolute, and shows the command's last name |
| `ServerMap.Project` | internal/hostprofile/parse.go:117-159 | What one server becomes: skipped, refused, or one program run directly, under a safe name, without shell, substitution or oversized argument |
| `ServerMap.ProjectExactly` | internal/hostprofile/parse.go:117-159 | A server is bound exactly if it is local, well formed and safe, to the command and the arguments its fields hold; it is skipped exactly if it is remote, and refused otherwise |
| `ServerMap.BindingsFromServerMap` | internal/hostprofile/parse.go:111-162 | Whatever order the servers come in, the document is refused exactly when it is no object, has more than 128 servers or one of them is bad, and yields each local server once, projected as the parser does |
| `ServerMap.ParsesAgree` | internal/hostprofile/parse.go:111-162 | Two parses of one document give the same bindings, with no ID twice |
| `HostAttribution.BindingFitsExactly` | schemas/agent-runtime-proof-1.0.schema.json:115-121 | For a server the parser accepts under a catalogued host, the proof schema accepts the attribution if and only if host ID, dot and server name together have at most 128 characters |
| `HostAttribution.HostFitsExactly` | schemas/agent-runtime-proof-1.0.schema.json:115-121 | The schema accepts an attribution exactly if host and binding identifier are each a letter or digit and up to 127 letters, digits, dots, underscores and hyphens |
| `HostAttribution.LongServerName` | internal/hostprofile/parse.go:121-124 | A server name of 128 letters under the host codex is accepted by the parser, and its attribution refused by the proof schema |
| `HostAttribution.SafeIsIdentifier` | internal/hostprofile/parse.go:253-263 | A safe server name is by itself what the proof schema calls an identifier, bytes and characters being the same there |
| `HostAttribution.ProfileIdentifierFits` | schemas/agent-runtime-host-profile-1.0.schema.json:10 | Every host ID a profile may have is an identifier of a proof |
| `CleanMeaning.CleanExactly` | internal/evaluator/evaluator.go:181-188 | The cleaned path is the only tidy one, rooted alike, that leads to the same place: no empty or dot segment, and a double dot only at the start of a relative path |
| `CleanMeaning.CleanLeadsThere` | internal/expectation/load.go:184-190 | In every tree of directories, from every place, the cleaned path leads where the given one leads |
| `CleanMeaning.CleanAgain` | internal/hostprofile/binding.go:27-31 | Cleaning a cleaned path changes nothing |
| `CleanMeaning.BaseExactly` | internal/hostprofile/binding.go:37-38 | The basename is the last name in the path, up to trailing slashes |
| `CleanPaths.RenderInjective` | internal/evaluator/evaluator.go:181-188 | Comparing cleaned path texts is comparing cleaned paths |
| `CleanPaths.WithinMeansBelow` | internal/expectation/load.go:184-190 | Containment by `filepath.Rel` means that the cleaned target continues the cleaned root downwards |
| `CleanPaths.WithinItself` | internal/expectation/load.go:184-190 | A root contains itself, so an allowed root may be the artifact root |
| `CleanPaths.WithinComposes` | internal/expectation/load.go:184-190 | Containment is transitive |
| `CleanPaths.JoinDescends` | internal/expectation/load.go:109-112 | Joining a relative slash path without dots to a root stays inside the root |
| `Expectations.Resolve` | internal/expectation/load.go:80-117 | It succeeds exactly when every root resolves, the artifact root is free of links unless they are allowed, and some allowed root contains it; the entrypoint test after that cannot fail |
| `Expectations.SelectsDeclared` | internal/expectation/match.go:8-28 | A digest selects exactly what some declared include pattern describes and no declared exclude pattern does, under the declared limits |
| `Expectations.WithinAnyExactly` | internal/evaluator/evaluator.go:168-179 | Within the allowed roots is exactly: a path was seen, and its cleaned segments continue those of some root |
| `Expectations.EntrypointExactly` | internal/evaluator/evaluator.go:81-84 | The path is the declared entrypoint exactly if its cleaned segments are the artifact root's and then the entrypoint's |
| `Expectations.EntrypointStaysInside` | internal/expectation/load.go:98-112 | A process running exactly the declared entrypoint runs inside an allowed root |
| `Evaluator.MatchedExactly` | internal/evaluator/evaluator.go:77-125 | MATCHED exactly when nothing failed, the launch is native without argument fingerprints, runs from the declared entrypoint inside an allowed root, has the hashed entrypoint loaded, and the digest is the expected one |
| `Evaluator.LeakedExactly` | internal/evaluator/evaluator.go:77-80 | LEAKED exactly when a native candidate runs outside every allowed root and nothing failed before |
| `Evaluator.StaleExactly` | internal/evaluator/evaluator.go:94-111 | STALE exactly when everything was observed and the digest is another, known one; path and identity are tested for native launches only |
| `Evaluator.ConflictExactly` | internal/evaluator/evaluator.go:44-59 | CONFLICT exactly when the host reports its bindings, or the processes that fit one, as ambiguous |
| `Evaluator.NotRunningExactly` | internal/evaluator/evaluator.go:44-72 | NOT_RUNNING exactly when the host reports no process, or there is no host failure and no process |
| `Evaluator.DecisionBehind` | internal/evaluator/evaluator.go:77-125 | Level, reasons and limitations beside LEAKED, STALE and MATCHED; EXPECTATION_UNTRUSTED beside MATCHED exactly under the trust "untrusted" |
| `Evaluator.UnknownBeforeArtifact` | internal/evaluator/evaluator.go:44-85 | The one reason beside UNKNOWN, and exactly when, if host or process could not be judged |
| `Evaluator.UnknownAboutArtifact` | internal/evaluator/evaluator.go:86-125 | The reason and the limitations beside UNKNOWN, and exactly when, once only the artifact is left to judge |
| `Evaluator.MissingExpectation` | internal/evaluator/evaluator.go:34-42 | Without an expectation: UNKNOWN with the codes of the host's and the process's failure, exactly those there were, the host's first |
| `Evaluator.InterpreterCanBeStale` | internal/evaluator/evaluator.go:107-111 | An interpreter launch with a known prior digest is STALE, unlike docs/data-handling.md lines 35 to 39 |
| `Evaluator.EntrypointNeverLeaked` | internal/evaluator/evaluator.go:77-84 | Under a resolved expectation a candidate running the declared entrypoint is never LEAKED |
| `ProofSemantics.ValidateProofSemantics` | internal/contract/validator.go:215-272 | Accepts exactly the proofs that keep every rule on verdict, observations, allowed verdicts and minimum levels of the registry |
| `ProofSemantics.PermittedExactly` | contracts/decision-registry.json:29-65 | The registry read the other way: which codes may stand beside a verdict, and at which levels |
| `ProofSemantics.EvaluatorAgreesExactly` | internal/evaluator/evaluator.go:33-126 | The evaluator's decision passes the validator if and only if no observation is kept beside a missing process and an artifact failure carries none of eight codes that no scan ends with |
| `ProofSemantics.CandidateBesideNotFound` | internal/evaluator/evaluator.go:60-72 | An input on which it does not pass: a candidate beside a missing process |
| `ProofSemantics.MismatchAsFailure` | internal/evaluator/evaluator.go:86-92 | Another: an artifact failure that carries ARTIFACT_MISMATCH |
| `ProofSemantics.ForeignMeansBarred` | internal/contract/validator.go:215-272 | Those eight codes are exactly the ones the registry does not allow for UNKNOWN at CONFIG_BOUND, and no code of a scan is among them |
| `ProofSemantics.RepeatsExactly` | internal/evaluator/evaluator.go:34-42 | A reason code is repeated if and only if, without an expectation, host and process both report a missing process |
| `ProofSemantics.RepeatedCode` | internal/evaluator/evaluator.go:34-42 | An input on which it is |
| `ProcessObserver.Snapshot` | internal/process/observer_linux.go:33-84 | A candidate's birth, link and image were each read at an instant of its own, in order, and may belong to different processes; it fails as not found only if the process was absent at some instant, and undisturbed only then |
| `ProcessObserver.TrimDeletedExactly` | internal/process/observer_linux.go:62-64 | Exactly the kernel's mark of a deleted image is taken off a link, once |
| `ProcessObserver.SameIdentityExactly` | internal/process/process.go:18-26 | Same PID, birth, boot and file; the path decides only if no file is known |
| `ProcessObserver.Revalidate` | internal/process/observer_linux.go:128-137 | Success means a second snapshot of the PID had the same identity; undisturbed, failure means the process was absent or another |
| `ProcessObserver.List` | internal/process/observer_linux.go:86-126 | Candidates by ascending PID, at most the limit, each a snapshot of its own within the call of a PID that was the user's; every PID is listed, beyond the limit, or skipped, and undisturbed only processes that are gone or another user's are skipped; a process that cannot be read is skipped and does not fail the list; while the table stands still it lists every process of the user |
| `ProcessObserver.RevalidatedLives` | internal/process/process.go:18-26 | A candidate that revalidates was one process from before its image was read until the second look, with the same image then |
| `ProcessObserver.NotLost` | internal/process/process.go:18-26 | While the process table stands still, a candidate revalidates |
| `Service.Build` | internal/proof/build.go:37-46 | Building fails exactly when the semantic validation, the demand for unique codes, or the pattern of the attributed identifiers would refuse the proof, and carries decision, process, artifact and attribution over unchanged |
| `Service.AttributedExactly` | internal/app/service.go:193-197 | A proof is attributed exactly if host profiles are configured and the binding was found, to its host and ID, whatever became of its process |
| `Service.Service.Recheck` | internal/app/service.go:101-108 | An observed process that does not revalidate is dropped, and its failure kept instead; undisturbed that means it was lost |
| `Service.Service.Report` | internal/app/service.go:101-115 | One observation rechecked, evaluated and proved, failing exactly if the schema refuses the attribution: the proof names the candidate found, who lived between two looks, or nobody with the reasons for that failure |
| `Service.Service.BindingCandidate` | internal/app/service.go:238-252 | A candidate found through a binding was snapshot within the call and is the only one listed that fits the binding; otherwise the resolver's, the observer's or the match's failure |
| `Service.Service.InspectPid` | internal/app/service.go:96-115 | Nothing but a cancellation fails; the verdict is UNKNOWN for a missing expectation; whoever is named has that PID and was one process between two looks; undisturbed the proof names a process exactly when there is one |
| `Service.Service.InspectBinding` | internal/app/service.go:116-136 | It fails exactly if the schema refuses the attribution to the binding; otherwise one attributed proof, naming who fits the binding and lived between two looks, or nobody with the reasons; undisturbed it names a process exactly if one process of the user fits |
| `Service.Service.InspectAll` | internal/app/service.go:140-169 | One proof for each process listed, in ascending order of PID; while nothing interferes, that is every process of the user up to the limit, and each is named |
| `Service.Service.InspectHost` | internal/app/service.go:258-301 | One attributed proof for each binding, about the candidate that fits it, named when nothing interferes; one binding whose attribution the schema refuses fails the whole host; one proof with the host's reason when its configuration cannot be read |
| `Service.Service.Find` | internal/app/service.go:189-201 | The candidate has the PID asked for or is the only one that fits the binding; when nothing interferes, a PID is found exactly if it is there, and a binding is matched against every process of the user |
| `Service.Service.Verify` | internal/app/service.go:172-236 | Refused exactly on malformed requests; if not cancelled it fails to build exactly if the schema refuses the attribution to the binding; MATCHED and STALE name an instant inside the call at which the reported process was alive and the artifact had the reported digest, MATCHED and native STALE with the artifact's entrypoint loaded before and after; LEAKED was seen outside every allowed root; CONFLICT is exactly an ambiguous binding; NOT_RUNNING keeps nothing and means a PID was absent; when nothing interferes the decision is the evaluator's on what is really there, an artifact that cannot be digested included |
| `Service.Service.BindingVerdicts` | internal/app/service.go:189-252 | When nothing interferes, a binding that several listed processes fit is a CONFLICT, and NOT_RUNNING is exactly a binding that none fits |
| `Service.Service.FailureReported` | internal/evaluator/evaluator.go:86-93 | When nothing interferes, a process in its place whose artifact cannot be digested is UNKNOWN, for a reason that is true of what is there |
| `Service.Service.ApprovedExactly` | internal/evaluator/evaluator.go:77-125 | When nothing interferes, MATCHED is reported exactly when the process runs the declared entrypoint inside an allowed root and the artifact is digestible, has the expected digest, and has that entrypoint loaded |
| `Service.Service.Warrant` | internal/app/service.go:199-231 | Each verdict issued for what was gathered is backed by its evidence |
| `Service.Service.Gather` | internal/app/service.go:199-221 | The artifact is digested between the two looks at the process, and nothing is kept of either if the second fails; undisturbed, it is the artifact that is there |
| `Guardian.NoOrphan` | internal/witness/guardian_unix.go:63-97 | In every interleaving of owner, guardian and a forking target, a guardian that left by its own code leaves nobody alive in the target's group; on Linux, after watching, no descendant at all |
| `Guardian.SomeChild` | internal/witness/guardian_reap_linux.go:12-30 | While the guardian adopts orphans, no child left means no descendant left |
| `Guardian.WaitedMeansLeft` | internal/witness/supervisor_unix.go:115-138 | The owner's wait returns only after the guardian has left; nobody is then alive in the group, and on Linux no descendant at all is left |
| `Guardian.WaitReturns` | internal/witness/supervisor_unix.go:115-138 | There is a run in which the wait returns |
| `Guardian.FailedStartIsClean` | internal/witness/supervisor_unix.go:75-102 | A failed start leaves nobody alive in the group, unless it failed on closing a completely written configuration pipe |
| `Guardian.FailedCloseCanOrphan` | internal/witness/supervisor_unix.go:84-93 | That exception is real: a run in which the target is alive and its guardian was killed |
| `Guardian.CleanFailureExactly` | internal/witness/supervisor_unix.go:75-102 | Of the ways `Start` can fail, every run leaves nobody alive in the group if and only if the failure is not that of closing a completely written configuration pipe |
| `Guardian.FailedCloseIsCleanWhen` | internal/witness/supervisor_unix.go:84-93 | Even then nobody is alive if the target was never started or the guardian had left by itself |
| `Guardian.GuardianKeeps` | internal/witness/guardian_unix.go:32-98 | Every guardian step keeps the invariant |
| `Guardian.OwnerKeeps` | internal/witness/supervisor_unix.go:43-167 | Every owner step, dying included, keeps the invariant |
| `GuardianProgress.ComesToAnEnd` | internal/witness/guardian_unix.go:63-98 | A guardian whose owner is gone, whose target exited or whose report failed cannot stop halfway: after a bounded number of its own steps and exits of killed processes it has left and nobody of the group is alive, unless it is held up |
| `GuardianProgress.EndsExactly` | internal/witness/guardian_unix.go:83-97 | It can leave without anybody's help if and only if it is not held up: by the target itself if that left the group alive, or on Linux by any descendant that did |
| `GuardianProgress.GroupIsKilled` | internal/witness/guardian_unix.go:85-93 | Held up or not, its own steps lead to a state in which nobody of the group is alive |
| `GuardianProgress.EscapedHoldsUp` | internal/witness/guardian_reap_linux.go:16-30 | A state that is reached in which it is held up: on Linux, after the owner's death, by a process that left the group |
| `GuardianStart.ReadingMoves` | internal/witness/guardian_unix.go:46-70 | Reading its configuration, the guardian can always refuse, and starts the target exactly if the whole configuration was written and the pipe closed |
| `GuardianStart.StartedMoves` | internal/witness/guardian_unix.go:71-76 | Having started the target it tells the owner, or fails to and goes on to kill the group, and nothing else |
| `GuardianStart.StartedMeansDelivered` | internal/witness/guardian_unix.go:46-54 | In every run a target was started only after the whole configuration was written and the pipe closed |
| `GuardianStart.OwnerMoves` | internal/witness/supervisor_unix.go:43-138 | A living owner is stuck nowhere: it can go on by itself, or it waits for a guardian that is still there |
| `GuardianStart.EveryEnding` | internal/witness/supervisor_unix.go:43-138 | Each way for the owner to finish, the failed starts included, is the end of some run |
| `GuardianStart.TargetIsFree` | internal/witness/guardian_unix.go:63-97 | In every state a living process of the target may fork, leave the group and exit, its children passing to the guardian on Linux while that is there and to init otherwise |
| `GuardianStart.OwnerMayDie` | internal/witness/supervisor_unix.go:43-138 | In every state a living owner may die, which closes its pipes and changes nothing else |
| `RunLoop.UnixSupervisor.Start` | internal/witness/supervisor_unix.go:43-47 | A second start is refused, and a failed one changes nothing |
| `RunLoop.UnixSupervisor.ClaimWait` | internal/witness/supervisor_unix.go:115-128 | Only one caller may wait |
| `RunLoop.UnixSupervisor.Wait` | internal/witness/supervisor_unix.go:115-138 | Only the first caller of a started supervisor gets the exit code, and only the guardian's end completes it |
| `RunLoop.UnixSupervisor.SignalGroup` | internal/witness/supervisor_unix.go:152-167 | Nothing is sent before there is a target, or after the guardian has been waited for |
| `RunLoop.EscalationBounds` | internal/witness/run.go:95-128 | At most one kill, never before the first stop plus the grace period; at most one other signal, none if input ended first |
| `RunLoop.EscalationAnswers` | internal/witness/run.go:95-128 | What is sent is exactly what the events call for: the signal that answers the first stop, at its time, and a kill at the first tick at or after that stop plus the grace period |
| `RunLoop.Select` | internal/witness/run.go:95-127 | One round of the select statement sends and remembers exactly what the escalation adds for that event |
| `RunLoop.EscalationSnoc` | internal/witness/run.go:95-128 | The loop's three variables carry all that the escalation over the events so far depends on |
| `RunLoop.Run` | internal/witness/run.go:64-130 | Once the launch is recorded the group is sent exactly what the events up to the guardian's end call for, whatever the outcome: the signal that answers the first stop, and a kill at the first tick past the grace period; an unrecorded launch is killed; the loop returns exactly when the guardian has ended and been reported, with its exit code or STATUS_UNAVAILABLE |
| `WitnessRun.RunWitness` | internal/witness/run.go:64-130 | When the loop returns after a successful start, in whatever run of owner, guardian and target beside it, nobody is alive in the target's group, and on Linux no descendant of the guardian is left; when the start failed nobody is, unless it failed on closing a completely written pipe |
| `WitnessRun.SomeRunBeside` | internal/witness/run.go:83-99 | There are such runs whenever the guardian's end is among the events |
| `ContentIdentity.Document.AssignId` | internal/receipt/receipt.go:62-75 | The identifier becomes that of the other fields, whatever it was; it fails exactly on unprintable fields |
| `ContentIdentity.Document.VerifyId` | internal/proof/digest.go:27-36 | A value is accepted exactly when its identifier is the one that would be assigned |
| `ContentIdentity.EqualIdsEqualFields` | internal/receipt/receipt.go:77-86 | Two accepted values with one identifier have the same fields |
| `ReceiptStore.PublishedIsComplete` | internal/store/receipt.go:46-75 | In every run of any number of writers, a published name holds one complete encoding of a receipt with that identifier |
| `ReceiptStore.PublishedNeverChanges` | internal/store/receipt.go:73-83 | Its bytes never change afterwards |
| `ReceiptStore.ReturnedIsStored` | internal/store/receipt.go:86-91 | A call that returned has the target hold the caller's bytes, and its temporary file is gone |
| `ReceiptStore.TemporaryStays` | internal/store/receipt.go:46-57 | From its creation until it is removed a temporary file keeps its name, which no other call ever shares or removes |
| `ReceiptStore.ConflictUnreachable` | internal/store/receipt.go:77-83 | The comparison with an existing receipt never finds a conflict when only this procedure wrote the directory |
| `ReceiptStore.StepKeeps` | internal/store/receipt.go:46-91 | Every step, failure and crash keeps the invariant |
| `ReceiptProgress.PublishedName` | internal/store/receipt.go:31-45 | A published name is the 64 characters of the hash of some fields, and its bytes, at most a megabyte, are the encoding of the receipt with those fields and that identifier |
| `ReceiptProgress.StepsAreBounded` | internal/store/receipt.go:46-91 | In every run of any number of calls each takes a bounded number of steps of its own, whatever the others do meanwhile |
| `ReceiptProgress.NeverStuck` | internal/store/receipt.go:46-91 | A call can go on by itself exactly until it has returned, has cleaned up after a failure, or died |
| `ReceiptProgress.AnythingMayHappen` | internal/store/receipt.go:46-91 | In every state a new call may begin and a running one may fail or die, its file half written or not |

## Left out

- Windows and Darwin: the walker, supervisor and observers there; only the guardian is proved with and without Linux's subreaper.
- Reading /proc: a snapshot is three reads of an abstract process table without kernel threads; command-line fingerprints are arbitrary, and a process that is gone is reported as not found or as an internal error, since gopsutil is not part of this model.
- Time: deadlines, timers and clocks are choices of the environment; observed durations are not part of results.
- The order of a directory listing: the walk is proved for every order, the program sorts first.
- NFC of a whole path is modelled segment by segment, which is the same because no normalization crosses a slash.
- Invalid UTF-8: texts are sequences of Unicode scalars, so `json.Marshal`'s replacement of invalid bytes and the printer's refusal of them do not arise.
- Service.Build: of the JSON Schema the uniqueness of codes and the identifiers of the attribution are modelled; the other constraints are on tool information set at build time, on labels `Project` redacts and truncates to the schema's lengths, on fields of expectations already validated by a schema with the same patterns, and on digests, decimals and counts the program formats itself. max_bytes is bounded where expectations are used.
- The detection of a changed root digest: `verifyArtifactPath` ignores its digest argument, and so does the model.
- The TOML, YAML, HuJSON and Cordis readers, and Unicode lower-casing, which is a parameter of a dialect.
- Profile catalogues, path templates and `Resolver`: what they answer is a parameter of the service's methods.
- Validation of the `Inspect` request, evidence items and label redaction: they do not touch the verdict.
- Loading expectation files, and expanding home-relative paths: parameters of `Expectations.Resolve`.
- A proper prefix of the guardian's configuration never decodes: taken as a rule of the state machine.
- Members that leave the target's group and rejoin it, a guardian killed by strangers, reuse of a process group number, and read errors other than the end on the status pipe.
- The interleaving of `Wait` and `signalGroup` between their critical sections: the lock's sections are separate methods, but a signal chosen just before completion may still go out just after.
- `PreparedLaunch` and `bindCommand`: a flag under a mutex and comparisons that would only add easy members.
- Reading back an existing receipt is one step, since published bytes never change; directory synchronization and its absence on the already-exists branch are not modelled, so nothing is said about power loss.
- Kernel.World.Read: reads at most 64 KiB but does not model end-of-file together with bytes, because the loop handles the two alike.
- RunLoop.Run: a run whose events end before the guardian's end has been reported is called still running, because the select statement would go on waiting.
