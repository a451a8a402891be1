# DevPod, modelled and proved in Dafny

DevPod turns a repository into a running development container. This project models the logic that
decides what happens on the way: how a Dockerfile is resolved and rewritten, how the agent gets into
a remote machine and takes over the user's streams, how folders are archived and unpacked, how
devcontainer files are found, and how the persisted state (config, contexts, inactivity, forwarded
ports, cached binaries, git credentials) changes over time. `dafny verify dfyconfig.toml` checks all
of it.

Code that updates things step by step is written as methods and classes with loops and invariants and
is proved against a specification function or an independent reference; the laws are lemmas about
those functions. Choices of the outside world (failures, the remote, the network, the scheduler, the
clock) are inputs or `*` choices, so every statement holds for all of them.

| file | models |
|---|---|
| `Text.dfy` | the parts of Go's `strings` that the code uses |
| `DockerfileSyntax.dfy` | buildkit's nodes, ARG/ENV/USER arguments, the scanner for variable references |
| `Dockerfile.dfy` | preamble, stages, `Parse` |
| `DockerfileScope.dfy` | the forward evaluator that the search is measured against |
| `DockerfileBindings.dfy` | the loops over ARG and ENV lists |
| `DockerfileSearch.dfy` | `findValue`, `replaceVariables` and `FindUserStatement` as functions with fuel, on every file |
| `DockerfileExact.dfy` | when search and forward evaluator agree |
| `DockerfileEnds.dfy` | on which lookups the code ends |
| `DockerfileFind.dfy` | `findValue` and `replaceVariables` as they run; the bounding line |
| `DockerfileTwins.dfy` | when two searches agree; undeclared build args |
| `DockerfileQueries.dfy` | `FindUserStatement`, `FindBaseImage` |
| `DockerfileRename.dfy` | naming the final stage, the rewritten text |
| `DockerfileRules.dfy` | the evaluator with two rules of the Dockerfile reference |
| `DockerfileSamples.dfy` | small files as nodes |
| `DockerfileCollision.dfy`, `DockerfileCycle.dfy`, `DockerfileDisputed.dfy`, `DockerfileRejoin.dfy` | files on which the code does not do what one expects |
| `FileTree.dfy`, `Archive.dfy`, `Extract.dfy` | directory trees, archiver, extractor |
| `Finder.dfy` | the two finders of devcontainer files |
| `DelayedWriter.dfy`, `Inject.dfy` | the injection protocol and its retry loop |
| `Config.dfy` | config with overrides, context commands |
| `Daemon.dfy` | the inactivity daemon over time |
| `Watcher.dfy` | port reconciliation |
| `Download.dfy` | the checksum-verified download cache |
| `Credentials.dfy` | git credentials, the credential section of a git config |

## Where the code departs from what one would expect

The model follows the code; each point below names the member that shows it.

- An ENV instruction is read two nodes at a time, but buildkit produces three nodes a pair. An ENV is
  read back as written if and only if it sets at most one variable (`EnvReadAsWritten`).
- An ARG wins over an ENV of the same name wherever the two stand, and ARGs before the first FROM are
  visible inside stages. Docker's "Environment replacement" and "Understand how ARG and FROM interact"
  say otherwise. `ReferenceValues`, `CodeReadsArg` and `CodeReadsGlobal` show a file on which the two
  differ. `CodeAgreesIff` says exactly when what the code answers is what the reference gives, and
  `CodeReadable` gives a condition to be read off the file.
- The guard against revisited stages is made afresh for every lookup. Two stages that refer to each
  other are never answered, whatever the fuel (`CycleNeverAnswers`). `AnswersIff` and `UserAnswersIff`
  say exactly, for every file, which lookups end: those from which following references never leads
  to one lookup twice. A circle of FROMs alone does no harm.
- Stage identities are not unique, so the guard can stop a lookup before it finds a value or user that
  is in force (`CollisionLosesValue`, `CollisionLosesUser`). `Kept` is the condition for one lookup; it
  suffices (`AnswerExact`) and, where lost references stand alone, is needed (`SimpleIff`,
  `NoReferenceIff`).
- Naming the final stage changes its identity. If a stage it is built from had the old one, the code
  can find a user in the rewritten file that it does not find in the original (`OriginalLosesUser`,
  `RenamedFindsUser`). `RenamedUserIff` says when the two are the same.
- Comments above the last FROM are printed again when it is rewritten, which moves the lines behind it
  (`TextRewritten`).
- Without a config file, working under `--context work` and then deleting that context makes
  `SaveConfig` follow a nil pointer. `NeverCrashesIff` gives the exact condition for every file.
- ARG, or USER inside a stage, without an argument makes `Parse` follow a nil pointer (`Parse`).
- Deleting a context that does not exist is not refused (`DeleteRefusesOnlyDefault`).
- `create` under a provider override leaves the override in the previous default context, `use` does
  unless it names that context and a provider was set there, and `set-options` does if none was set.
  `ProvidersKeptIff` gives the exact condition for every command, `OverridesLeaveNoTrace` the one for
  load and save.
- `copyLocal` is given the target folder where it expects a file, so a binary with a relative local path
  is never copied: the path returned for it holds what it held before, if anything (`DownloadBinary`).
- Excluding ".", "./" or "" drops everything (`PruningExact`).
- After a failed tick, a port it stopped that the next tick finds again is not restarted if it was
  known, and a port it forwarded that the next tick no longer finds is not stopped
  (`RepairedExactly`).

## Model

| member | source | states |
|---|---|---|
| DockerfileSyntax.ReadEnv | pkg/dockerfile/parse.go:432-450 | the loop reads the pairs off the chain two nodes at a time, a single trailing node is dropped |
| DockerfileSyntax.EnvReadAsWritten | pkg/dockerfile/parse.go:436-447 | an ENV on buildkit's three-node pairs is read back as written iff it sets at most one variable |
| DockerfileSyntax.ScanRefExact | pkg/dockerfile/parse.go:12 | one match of the reference pattern and the rest of the value together are the value |
| DockerfileSyntax.RenderScan | pkg/dockerfile/parse.go:94-96 | cutting a value into references and plain text loses nothing |
| DockerfileSyntax.VariableMeans | pkg/dockerfile/parse.go:94-128 | between texts without a dollar sign, `${name}` is replaced by the value of the variable, and so is `$name` unless a name character, a colon or a brace follows |
| DockerfileSyntax.DefaultMeans | pkg/dockerfile/parse.go:111-128 | `${name:-word}` is replaced by the word where the variable is unset or empty and by its value otherwise, without outer quotes |
| DockerfileSyntax.AlternativeMeans | pkg/dockerfile/parse.go:111-128 | `${name:+word}` is replaced by nothing where the variable is unset or empty and by the word, without outer quotes, otherwise |
| DockerfileSyntax.UserMeans | pkg/dockerfile/parse.go:395-404 | a USER's key is what stands before the first colon |
| DockerfileSyntax.ArgMeans | pkg/dockerfile/parse.go:406-430 | an ARG is split at its first equals sign, so that a default may contain more; without one the default is empty |
| DockerfileSyntax.EnvMeans | pkg/dockerfile/parse.go:432-450 | an ENV key loses the white space around it, a value its backslashes and outer quotes, and nothing else |
| Text.UnquoteMeans | pkg/dockerfile/parse.go:111-128 | quotes of either kind are taken off both ends of a value, and off nothing else |
| Dockerfile.Parse | pkg/dockerfile/parse.go:314-393 | the parts put together are the instructions, every stage is one FROM and what follows it, lists and target index belong to it; the exact inputs on which it is empty or follows a nil pointer |
| Dockerfile.PlaceInstruction | pkg/dockerfile/parse.go:346-381 | one instruction keeps preamble and stages a partition of what was read so far, or crashes exactly on ARG, or USER in a stage, without an argument |
| Dockerfile.IndexTargets | pkg/dockerfile/parse.go:383-390 | every non-empty target is a key, nothing else is, and it maps to the last stage of that name |
| Dockerfile.FromMeans | pkg/dockerfile/parse.go:452-468 | the image is the first word behind FROM; the name is the third if the second is AS in any case, and otherwise there is none |
| Dockerfile.ParseUnique | pkg/dockerfile/parse.go:346-390 | what Parse promises determines its result |
| DockerfileBindings.LastArg | pkg/dockerfile/parse.go:143-156 | the last ARG of the name before the line that has a build arg or a default, or that there is none |
| DockerfileBindings.LastEnv | pkg/dockerfile/parse.go:158-167 | the last ENV of the name before the line with a value, or that there is none |
| DockerfileBindings.ArgFound | pkg/dockerfile/parse.go:143-156 | the ARG the backward search picks is the one in force when the instructions run forward, with its default expanded at its own line |
| DockerfileBindings.ArgMissing | pkg/dockerfile/parse.go:143-156 | an ARG the search does not find is not in force either, unless it was at the start |
| DockerfileBindings.EnvFound | pkg/dockerfile/parse.go:158-167 | the same for ENV, where all pairs of one ENV see the state before that line |
| DockerfileBindings.EnvMissing | pkg/dockerfile/parse.go:158-167 | an ENV the search does not find has the value from the start |
| DockerfileBindings.NothingHere | pkg/dockerfile/parse.go:143-176 | when neither list binds the variable, its value is the one the place started with |
| DockerfileBindings.BindingInForce | pkg/dockerfile/parse.go:143-176 | one round of the search, whatever it finds, against the forward evaluator |
| DockerfileBindings.LastUser | pkg/dockerfile/parse.go:29-32 | the last USER of a stage, expanded at its line, is the user in force at its end; without one it is inherited |
| DockerfileSearch.MoreFuel | pkg/dockerfile/parse.go:130-191 | more fuel never changes an answer, on any file |
| DockerfileSearch.OneAnswer | pkg/dockerfile/parse.go:130-191 | a lookup has at most one answer |
| DockerfileSearch.OneUser | pkg/dockerfile/parse.go:16-45 | so has the search for a user |
| DockerfileExact.NextForward | pkg/dockerfile/parse.go:178-189 | going on to the stage a FROM names, or to the preamble, asks for what the stage started with: ENV from a stage, ARG too from the preamble |
| DockerfileExact.FoundForward | pkg/dockerfile/parse.go:136-190 | one step of the search, to a value or to another place, keeps the forward value |
| DockerfileExact.PreambleKept | pkg/dockerfile/parse.go:169-176 | nothing is ever lost in the preamble |
| DockerfileExact.ImageExact | pkg/dockerfile/parse.go:179 | the image behind a FROM is always what the forward evaluator makes of it at the end of the preamble |
| DockerfileExact.AnswerExact | pkg/dockerfile/parse.go:130-191 | on every ordered file whose FROMs refer back, the answer is the forward value for each lookup on whose way, and hereditarily on that of each reference it expands, no identity repeats while there is something to find |
| DockerfileExact.SearchLoses | pkg/dockerfile/parse.go:136-141 | where every lost reference stands alone and the condition fails, the answer is shorter than the forward value |
| DockerfileExact.SimpleIff | pkg/dockerfile/parse.go:130-191 | so unless a lost reference stands behind `:-` or `:+` or in an ARG default, the answer is right iff the condition holds |
| DockerfileExact.NoReferenceIff | pkg/dockerfile/parse.go:136-167 | for a binding without references: right iff no identity repeats before the place that binds the variable, or there is no value |
| DockerfileExact.UserIff | pkg/dockerfile/parse.go:16-45 | the same for the user: right if nothing is lost, and where lost references stand alone only then |
| DockerfileExact.UnambiguousKept | pkg/dockerfile/parse.go:47-49 | in a file in which no stage shares its identity with one it is built from, no lookup loses anything |
| DockerfileExact.UnambiguousUserKept | pkg/dockerfile/parse.go:47-49 | nor does the search for a user |
| DockerfileCollision.CollidingParsed | pkg/dockerfile/parse.go:346-390 | the file with two stages of one identity is in order and is what Parse makes of four instructions |
| DockerfileCollision.CollisionLosesValue | pkg/dockerfile/parse.go:136-141 | in it the search answers "" for a variable whose forward value is "1", for all build args and base environments |
| DockerfileCollision.CollisionLosesUser | pkg/dockerfile/parse.go:22-27 | and answers "" for the user that is "u" |
| DockerfileEnds.PreambleEnds | pkg/dockerfile/parse.go:169-176 | lookups in the preamble end on every file |
| DockerfileEnds.GoalCosts | pkg/dockerfile/parse.go:136-190 | the walk of a lookup along FROMs ends on every file, and getting to the text it ends in costs fuel |
| DockerfileEnds.WalkAnswers | pkg/dockerfile/parse.go:136-190 | if that text can be expanded, or there is none, the lookup is answered |
| DockerfileEnds.CircularNever | pkg/dockerfile/parse.go:94-191 | a lookup from which references lead to one lookup twice is not answered with any fuel |
| DockerfileEnds.PathAnswers | pkg/dockerfile/parse.go:94-191 | every other one is, since the file has finitely many references |
| DockerfileEnds.AnswersIff | pkg/dockerfile/parse.go:130-191 | for every file, ordered or not, with FROMs in any direction: a lookup has an answer iff it is not circular |
| DockerfileEnds.UserAnswersIff | pkg/dockerfile/parse.go:16-45 | FindUserStatement ends iff the USER it comes to refers to nothing circular |
| DockerfileFind.NestedSmaller | pkg/dockerfile/parse.go:152-165 | a lookup nested at an ARG or ENV is bounded by a smaller line |
| DockerfileFind.NextSmaller | pkg/dockerfile/parse.go:178-189 | resolving a FROM lowers the bounding line and going on to its stage never raises it |
| DockerfileFind.FindHere | pkg/dockerfile/parse.go:143-167 | on every file: one round finds something iff a list binds the variable, and returns what the search gives |
| DockerfileFind.ResolveImage | pkg/dockerfile/parse.go:179 | ends on every file, with the one image the FROM has; in an ordered file that is what the forward evaluator makes of it |
| DockerfileFind.FindValue | pkg/dockerfile/parse.go:130-191 | ends on every lookup of every file that is not circular, which are all that can end; returns the answer of the search, which on an ordered file whose FROMs refer back is the forward value at that place and line if nothing is lost on the way |
| DockerfileFind.ReplaceVariables | pkg/dockerfile/parse.go:94-128 | a value whose references are not circular with every reference replaced by its answer; by its forward value if nothing is lost; the rows below say what that means of a text |
| DockerfileFind.ReplaceMeans | pkg/dockerfile/parse.go:94-128 | if the lookups of the references answer as a map of variables does, the result is the text expanded with that map |
| DockerfileFind.VariableReplaced | pkg/dockerfile/parse.go:94-128 | `$name` and `${name}` are replaced by the lookup's answer, the text around them stays |
| DockerfileFind.DefaultReplaced | pkg/dockerfile/parse.go:94-128 | `${name:-word}` is replaced by the word if the lookup's answer is empty and by the answer if not |
| DockerfileFind.AlternativeReplaced | pkg/dockerfile/parse.go:94-128 | `${name:+word}` is replaced by the word unless the lookup's answer is empty |
| DockerfileFind.AcyclicAnswers | pkg/dockerfile/parse.go:130-191 | in an ordered file in which no stage is built from itself every lookup ends, FROMs that refer forward included |
| DockerfileFind.SearchableEnds | pkg/dockerfile/parse.go:130-191 | so no lookup is circular where FROMs refer back |
| DockerfileFind.SearchableUserEnds | pkg/dockerfile/parse.go:16-45 | nor is a user |
| DockerfileFind.RefersSmaller | pkg/dockerfile/parse.go:94-191 | where FROMs refer back, a lookup leads to another, through any number of steps along FROMs, only at a strictly smaller bounding line |
| DockerfileCycle.CycleNeverAnswers | pkg/dockerfile/parse.go:136-190 | for two stages that refer to each other no amount of fuel answers the lookup |
| DockerfileCycle.CycleHasNoAnswer | pkg/dockerfile/parse.go:136-190 | so there is nothing for the code to return |
| DockerfileCycle.CycleIsCircular | pkg/dockerfile/parse.go:136-190 | each of the two lookups is circular |
| DockerfileCycle.CyclicIsParsed | pkg/dockerfile/parse.go:346-390 | that file is what Parse makes of four ordinary instructions |
| DockerfileTwins.SearchAgrees | pkg/dockerfile/parse.go:130-191 | with the same fuel two files give the same answer, or none, if their lists agree, FROMs lead alike, and identities are shared alike among the places visited |
| DockerfileTwins.SearchUserAgrees | pkg/dockerfile/parse.go:16-45 | the same for the user |
| DockerfileTwins.UndeclaredArgsIgnored | pkg/dockerfile/parse.go:143-156 | on every file, cyclic and ambiguous ones included, build args that agree on all declared ARGs give every lookup and user the same answer, or none, with the same fuel |
| DockerfileTwins.UndeclaredAnswers | pkg/dockerfile/parse.go:16-45 | so whatever the code returns with the one it returns with the other |
| DockerfileQueries.ScopesIgnoreUndeclared | pkg/dockerfile/parse.go:143-156 | the forward evaluator ignores undeclared build args too |
| DockerfileQueries.FindUserStatement | pkg/dockerfile/parse.go:16-45 | on every file: ends if the user refers to nothing circular and returns the one answer of the search; on an ordered file whose FROMs refer back that is the user in force at the end of the selected stage if nothing is lost on the way |
| DockerfileQueries.UserWithoutGroup | pkg/dockerfile/parse.go:16-45 | for a stage whose last USER is `name` or `name:group` that answer is the name, whatever the group, the build args and the base image |
| DockerfileQueries.FindBaseImage | pkg/dockerfile/parse.go:51-74 | stops within as many steps as there are stages, cyclic files included; returns the first name on the FROM walk that is no stage, or "" when a stage comes again; never a stage target |
| DockerfileQueries.BaseImageUnique | pkg/dockerfile/parse.go:51-74 | the answer is determined by file, build args and first stage |
| DockerfileQueries.BaseImageIsRoot | pkg/dockerfile/parse.go:64-68 | if FROMs refer back, the walk from the first stage ends at a stage built from no other, and the answer is that stage's image |
| DockerfileQueries.PreambleArgsFixBase | pkg/dockerfile/parse.go:64 | build args that agree on the ARGs before the first FROM give the same base image |
| DockerfileRules.AgreeIff | pkg/dockerfile/parse.go:143-167 | for every scope and variable of the forward evaluator: ARG before ENV gives what ENV before ARG gives iff no ARG hides another value, no ARG of the preamble shows undeclared, and no bare ARG is passed over |
| DockerfileRules.RulesAgreeIff | pkg/dockerfile/parse.go:130-191 | in every file whose references are undisputed, the forward evaluators with the code's and with the reference's rules agree on a variable at a line of a stage iff the variable is undisputed there, and agree on the user |
| DockerfileRules.EverywhereIff | pkg/dockerfile/parse.go:130-191 | the two evaluators agree on all variables at all lines iff no variable is ever disputed |
| DockerfileRules.ReadableAgree | pkg/dockerfile/parse.go:130-191 | if no name is both an ARG and an ENV, ARGs of the preamble are redeclared in one form and before they are referred to, the two evaluators agree on the user and on every variable that is no undeclared ARG of the preamble |
| DockerfileRules.CodeAgreesIff | pkg/dockerfile/parse.go:130-191 | what the code answers for a lookup that loses nothing, in a file whose references are undisputed, is the value the Dockerfile reference gives iff the variable is undisputed there |
| DockerfileRules.CodeUserAgrees | pkg/dockerfile/parse.go:16-45 | the user the code finds, losing nothing in such a file, is the one the reference gives |
| DockerfileRules.CodeReadable | pkg/dockerfile/parse.go:130-191 | under the condition read off the file, what the code answers for a lookup that loses nothing is the reference's value |
| DockerfileDisputed.DisputedParsed | pkg/dockerfile/parse.go:346-390 | the file on which they differ is what Parse makes of four instructions |
| DockerfileDisputed.CodeReadsArg | pkg/dockerfile/parse.go:143-156 | the code answers with the ARG of the stage |
| DockerfileDisputed.CodeReadsGlobal | pkg/dockerfile/parse.go:178-184 | the code answers with the ARG of the preamble |
| DockerfileDisputed.ReferenceValues | pkg/dockerfile/parse.go:143-184 | by the reference the first is the ENV and the second only what the base image has |
| DockerfileRename.EnsureFinalStageName | pkg/dockerfile/parse.go:198-235 | the last FROM is kept if named, refused if empty, and otherwise rewritten; exactly when each happens; the rewritten node keeps keyword, flags, comments and lines, its image with its flags, and ends in AS and the name |
| DockerfileRename.RenamedFlat | pkg/dockerfile/parse.go:227-234 | the renamed file has the old instructions but for the rewritten FROM |
| DockerfileRename.ReparseRenamed | pkg/dockerfile/parse.go:227-234 | parsing the rewritten instructions gives the old file with only the last stage's name and FROM changed |
| DockerfileRename.NamingPreservesMeaning | pkg/dockerfile/parse.go:198-235 | if the name is free, it selects the last stage, other targets select what they did, and user and base image are the same for every build-arg map |
| DockerfileRename.RenamedUser | pkg/dockerfile/parse.go:16-45 | the code finds the same user in the original and in the renamed file, however other stages share identities, if the final stage has an identity of its own on its chain and the name is distinctive |
| DockerfileRename.RenamedUserIff | pkg/dockerfile/parse.go:16-45 | for any free name, if the search loses nothing in the renamed file: the users are the same if it loses nothing in the original, and where lost references stand alone only then |
| DockerfileRename.ComposeAnalysis | pkg/devcontainer/compose.go:428-451 | the base image found in the original file with no target is that found in the rewritten one with the added name; so is the user if the final stage has an identity of its own or neither file loses it, and, given that the rewritten file does not, only if the original does not |
| DockerfileRejoin.RejoiningParsed | pkg/dockerfile/parse.go:346-390 | a file whose final stage shares its identity with one it is built from is in order and is what Parse makes of four instructions |
| DockerfileRejoin.OriginalLosesUser | pkg/dockerfile/parse.go:22-27 | in it the code finds no user |
| DockerfileRejoin.RenamedFindsUser | pkg/dockerfile/parse.go:22-45 | once the final stage is given a new name, whichever, it finds the user of the stage below |
| DockerfileRename.NamedSelectsLast | pkg/dockerfile/parse.go:222-225 | an existing name of the final stage selects the final stage |
| DockerfileRename.DumpIsWords | pkg/dockerfile/parse.go:483-504 | a node without comments prints as its words separated by blanks |
| DockerfileRename.DumpIsLines | pkg/dockerfile/parse.go:483-504 | with comments it prints as a line for each comment and then the line of words |
| DockerfileRename.ReplaceInDockerfile | pkg/dockerfile/parse.go:237-255 | lines within the node's range are replaced by the printed node, all others stay |
| DockerfileRename.TextRewritten | pkg/dockerfile/parse.go:237-255 | for a FROM on one line the new text is the old lines before, the comments above it once more, a line that splits into the words of the rewritten node, and the old lines after; lines keep their places iff there are no comments |
| DockerfileRename.NamedWords | pkg/dockerfile/parse.go:227-234 | the words of the rewritten node are keyword, flags, image, the image's flags, AS and the name |
| DockerfileRename.LineNamed | pkg/dockerfile/parse.go:198-255 | so the new text has, in the place of the FROM, its comments and one line of exactly these words, and every other line as it was |
| Archive.Archiver.IsExcluded | pkg/extract/compress.go:106-114 | true iff some excluded path is a prefix |
| Archive.Archiver.AddToArchive | pkg/extract/compress.go:77-104 | appends what the pruning walk below the path yields, and remembers exactly those paths |
| Archive.Archiver.TarFolder | pkg/extract/compress.go:116-149 | the same for a directory; an empty one other than the root becomes an entry |
| Archive.Archiver.TarEntries | pkg/extract/compress.go:137-146 | the loop over a directory appends what the children yield, none of which another child has written |
| Archive.Archiver.TarFile | pkg/extract/compress.go:151-200 | one entry for a regular file or, unresolved, a symlink |
| Archive.PrunedIsFilter | pkg/extract/compress.go:77-149 | below an unexcluded root, pruning folders loses and adds no leaf: it is the filter by each own path, in order |
| Archive.RootExcluded | pkg/extract/compress.go:106-114 | the root is excluded iff "", "." or "./" is in the list |
| Archive.PruningExact | pkg/extract/compress.go:77-149 | the pruned walk equals the filter over all leaves iff the root is not excluded or no leaf passes |
| Archive.FoldersExcluded | pkg/extract/compress.go:77-149 | with folders excluded by path and slash, as an export does, the archive holds exactly the files, links and empty directories that lie in none of them |
| Archive.PrefixIff | pkg/extract/compress.go:106-114 | the prefix test on texts is the prefix test on paths: a folder's siblings whose names begin alike are kept |
| Archive.LeavesDistinct | pkg/extract/compress.go:78-80 | no leaf has the path of another, so each is written once |
| Extract.Strip | pkg/extract/extract.go:81-94 | the loop equals stripping level by level and stops at a bare name |
| Extract.StripKeepsName | pkg/extract/extract.go:81-95 | stripping n levels drops the first n folders, as many as there are, never the file name |
| Extract.OutPathExact | pkg/extract/extract.go:81-96 | a path of ordinary names goes through the header and comes out below the destination |
| Extract.Extractor.ExtractNext | pkg/extract/extract.go:71-165 | the file system after one entry, or that it fails |
| Extract.Extractor.Extract | pkg/extract/extract.go:60-69 | the file system after all entries, or that one fails |
| Extract.PlaceIff | pkg/extract/extract.go:97-165 | an entry can be placed iff only directories lie on the way, and at its place there is nothing, or a file for a file, or a directory for a directory |
| Extract.PlaceAt | pkg/extract/extract.go:97-165 | then its place holds the entry's content, target or directory, what leads to it are directories, and every other path is as it was |
| Extract.LaterContentWins | pkg/extract/extract.go:127-165 | a second entry for a file replaces its content and changes nothing else |
| Extract.ExtractTree | pkg/extract/extract.go:71-165 | extracting the leaves of any subtree into a vacant place rebuilds exactly that subtree and the directories leading to it |
| Extract.RoundTrip | pkg/extract/extract.go:33-165 | extracting the unexcluded archive of any tree into an empty folder rebuilds it there, empty directories included, and changes nothing else |
| Finder.LocalFinder.Walk | pkg/devcontainer/helpers.go:57-76 | the walk appends the paths it reports in visiting order |
| Finder.FoundIff | pkg/devcontainer/helpers.go:57-76 | a path is reported iff it exists, bears the name and its directories are within the depth |
| Finder.LocalIff | pkg/devcontainer/helpers.go:57-76 | from the source down: a file is found one level deeper than a directory |
| Finder.FilterGitPaths | pkg/devcontainer/helpers.go:116-126 | the scanner loop keeps exactly the listed paths within the depth that bear the name |
| Finder.KeptIff | pkg/devcontainer/helpers.go:116-126 | membership in what the filter keeps, for every listing, depth and path |
| Finder.SameFiles | pkg/devcontainer/helpers.go:52-82 | walk and filter find the same set iff no visited directory bears a devcontainer file name, for every tree and depth |
| Finder.NamedFile | pkg/devcontainer/helpers.go:136-138 | walk and filter find a file iff its name is devcontainer.json or .devcontainer.json and its folder is within the depth |
| DelayedWriter.DelayedWriter.Start | pkg/inject/delayed_writer.go:28-47 | everything held back reaches the writer once, in order |
| DelayedWriter.DelayedWriter.Write | pkg/inject/delayed_writer.go:49-61 | a write is held back before Start and passed on after it |
| DelayedWriter.Replay | pkg/inject/delayed_writer.go:28-61 | after any interleaving the writer holds all writes once and in order if Start was called, nothing if not |
| Inject.Reader.ReadLine | pkg/inject/inject.go:261-277 | a line and nothing behind its newline is consumed |
| Inject.LineExact | pkg/inject/inject.go:261-277 | a line is read iff a newline is still to come, and line, newline and rest are the stream |
| Inject.InjectBinary | pkg/inject/inject.go:228-250 | fails iff the upload fails or the remote does not say done |
| Inject.Inject | pkg/inject/inject.go:130-201 | the streams are handed over iff the remote said ping and done; else they are untouched; what the remote was sent |
| Inject.InjectAndExecute | pkg/inject/inject.go:31-128 | an attempt succeeds iff it could start, the command's error did not come first, and the agent was there and all bytes were copied, or it was uploaded and the command ran without an error; stdin, stdout and stderr change only if it hands over, and then by exactly its bytes, with stderr from before the hand-over included |
| Inject.InjectAgentAndExecute | pkg/agent/inject.go:89-137 | over all runs only the last attempt made can have been given the user's streams; a retry happens only after attempts that touched none of them; the outcome is success, timeout or the agent's error exactly under the conditions written out on the last attempt |
| Inject.HandoverByteExact | pkg/inject/inject.go:140-201 | on the done path the remote's bytes are two lines and then what the user gets, in order, all of it when the copier finishes |
| Inject.ExecutesIff | pkg/inject/inject.go:130-201 | the streams are handed over iff, in time, the remote's bytes begin with a line "ping" and a line "done" |
| Inject.UploadsIff | pkg/inject/inject.go:130-250 | the agent is uploaded iff they begin with a line "ping", one that starts with "ARM-" and, the upload having worked, a line "done" |
| Config.Store.LoadConfig | pkg/config/config.go:208-273 | the loaded config for every file, missing or not, and every pair of overrides |
| Config.Store.SaveConfig | pkg/config/config.go:275-305 | the stored file, and exactly when a missing context is dereferenced |
| Config.Store.RunCreate | cmd/context/create.go:44-75 | the step of the file, with its refusals |
| Config.Store.RunUse | cmd/context/use.go:42-65 | the step of the file, with its refusals |
| Config.Store.RunSetOptions | cmd/context/set_options.go:47-74 | the step of the file, with its refusals |
| Config.Store.RunDelete | cmd/context/delete.go:44-76 | the step of the file, with its refusals |
| Config.Store.RunUnder | pkg/config/config.go:208-305 | the step of any other command that loads under overrides and saves |
| Config.StepSound | pkg/config/config.go:281-287 | every command keeps "default" and the stored default context present and never crashes |
| Config.RunSound | cmd/context/delete.go:44-76 | so does every sequence of commands |
| Config.NotSoundCrashes | pkg/config/config.go:218-287 | for every other file, missing ones included, a run of at most two commands follows a nil pointer |
| Config.NeverCrashesIff | pkg/config/config.go:281-287 | no sequence of commands crashes iff the file is there with "default" and its stored default context |
| Config.DeleteRefusesOnlyDefault | cmd/context/delete.go:50-60 | deletion, of a named or of the current context, is refused iff that is "default"; otherwise exactly that context is gone |
| Config.OverridesLeaveNoTrace | pkg/config/config.go:244-287 | load and save leave default context and providers as they were iff the stored default has a name and is there and the provider override falls where it is restored |
| Config.ProvidersKeptIff | cmd/context/use.go:42-65 | for every sound file and every command that ran, the contexts that survive keep their providers iff there was no override, it changed nothing, it fell on a new or deleted context, or it fell where saving restores a provider that was set |
| Config.CreateContents | cmd/context/create.go:44-75 | a sound file then holds one context more, which is the default and has the options given; all others keep their options |
| Config.UseContents | cmd/context/use.go:42-65 | the contexts stay, the named one is the default, and the options given are added to those it had |
| Config.SetOptionsContents | cmd/context/set_options.go:47-74 | contexts and default stay; the options given are added to those of the context named, or of the default one |
| Config.DeleteContents | cmd/context/delete.go:44-76 | exactly the named or current context is gone; the default falls back to "default" if it was that one; all options stay |
| Config.SaveContents | pkg/config/config.go:208-305 | a save under overrides adds at most the context worked under and keeps a named default and all options |
| Config.RefusedIff | cmd/context/create.go:44-75 | when each of the five commands is refused, on any file |
| Config.FirstSave | pkg/config/config.go:218-232 | what is written where there was no file |
| Config.FirstCreate | cmd/context/create.go:44-75 | what `create` writes where there was no file |
| Daemon.Patrol.InitialTouch | cmd/agent/daemon.go:171-195 | all files up to the first that cannot be touched get the start time |
| Daemon.Patrol.DoOnce | cmd/agent/daemon.go:81-142 | the shutdown runs iff the first most recently active workspace has been inactive for its timeout |
| Daemon.Patrol.Run | cmd/agent/daemon.go:61-79 | the shutdowns of a whole run of touches, busy marks, arrivals, removals and ticks |
| Daemon.ShutdownWaits | cmd/agent/daemon.go:99-142 | a shutdown implies that every auto-stop workspace has waited for the timeout of the most recent one |
| Daemon.ShutdownAt | cmd/agent/daemon.go:125-138 | with one timeout a tick shuts down iff it comes at or after last activity + timeout |
| Daemon.EveryShutdownWaited | cmd/agent/daemon.go:99-142 | every shutdown of every run comes at a tick by which all auto-stop workspaces waited for the timeout of the most recent one |
| Daemon.QuietRun | cmd/agent/daemon.go:125-138 | with one timeout and no further activity the shutdowns are exactly the ticks at or after last activity + timeout |
| Daemon.LatestExists | cmd/agent/daemon.go:99-113 | there is a most recent activity whenever some workspace counts |
| Daemon.ShutdownOfOne | cmd/agent/daemon.go:197-223 | a lone workspace is shut down iff its config is readable with a shutdown command and its last touch, twenty minutes more if busy, lies its timeout back, twenty minutes by default |
| Daemon.ShutdownOfTwo | cmd/agent/daemon.go:99-138 | of two workspaces the one touched last, busy time included, decides with its own timeout |
| Daemon.NeverBeforeStart | cmd/agent/daemon.go:61-63 | no run shuts down before start + the smallest timeout, if the touch reached all workspaces |
| Watcher.Watcher.RunOnce | pkg/netstat/watcher.go:46-76 | the forwards after a tick that succeeds, which again match the bookkeeping with calls taking turns; a failed one keeps the bookkeeping and every port on which found and known ports agree |
| Watcher.Watcher.ForAll | pkg/netstat/watcher.go:52-72 | calling the forwarder port by port in any order switches exactly these ports, and succeeds iff none is faulty |
| Watcher.Watcher.Run | pkg/netstat/watcher.go:32-76 | in every run without faults exactly the last found ports are active and per port Forward and StopForward take turns |
| Watcher.Watcher.FailThenRepeat | pkg/netstat/watcher.go:52-74 | a failed tick followed by one with the same ports ends with exactly those |
| Watcher.RepairedExactly | pkg/netstat/watcher.go:52-74 | a tick after a failed one ends right iff it makes a call for every port that is off |
| Download.Machine.VerifyBinary | pkg/binaries/download.go:178-194 | success means the file is there with the checksum; at most that file is removed |
| Download.Machine.CopyFile | pkg/copy/copy.go:128-147 | success means equal content; failure changes at most the destination, possibly half way |
| Download.Machine.FromCache | pkg/binaries/download.go:142-172 | success means the target holds what the cache held, with the checksum; where nothing fails it succeeds iff the cache has such content |
| Download.Machine.ToCache | pkg/binaries/download.go:124-140 | filling the cache changes nothing but the cache, however it ends; where nothing fails the cache then holds the file |
| Download.Machine.DownloadBinary | pkg/binaries/download.go:227-297 | the returned path lies in the name's folder or is the absolute path asked for, and for a URL or an absolute path it holds a file; nothing outside folder, cache and that path changes; a file the network has arrives with exactly its content where nothing fails |
| Download.Machine.TryDownload | pkg/binaries/download.go:87-111 | after up to three downloads the path returned holds a file with the checksum; where nothing fails and the network has it, it succeeds, with exactly that content if nothing was there |
| Download.Machine.DownloadOnce | pkg/binaries/download.go:87-111 | one download is kept and cached if it has the checksum; a stale file in its place is removed, so that the next one is fresh |
| Download.AskedIs | pkg/binaries/download.go:196-221 | a download is looked for under its path in the archive, else under the name given, else under the last part of its URL |
| Download.Machine.Provide | pkg/binaries/download.go:83-111 | one location: found, from the cache or downloaded, what is returned holds a file with the checksum; where nothing fails and the network has it, it succeeds, with exactly that content if neither place nor cache had a file |
| Download.Machine.DownloadBinaries | pkg/binaries/download.go:71-122 | on success every name has a path; for a URL or an absolute path a file is there, and with a checksum it has content of that hash; it succeeds where nothing fails and the network has every binary for this machine, and where besides no files or cache entries were there, with exactly the network's content under every name |
| Credentials.Parse | pkg/gitcredentials/gitcredentials.go:95-121 | the loop assigns line by line, the last assignment wins |
| Credentials.ToString | pkg/gitcredentials/gitcredentials.go:123-145 | the non-empty fields as lines in a fixed order |
| Credentials.RequestNames | pkg/gitcredentials/gitcredentials.go:123-145 | the lines printed are exactly the non-empty fields behind their six names; with all of them there, in this order |
| Credentials.LineNames | pkg/gitcredentials/gitcredentials.go:95-121 | a line under one of the six names sets exactly the field of that name |
| Credentials.RoundTrip | pkg/gitcredentials/gitcredentials.go:95-145 | parsing what was printed gives the credentials back iff no field contains a newline or ends in white space |
| Credentials.ParsedClean | pkg/gitcredentials/gitcredentials.go:95-121 | nothing parsed from lines has a newline or ends in white space, which is why the condition is needed |
| Credentials.RemoveCredentialHelper | pkg/gitcredentials/gitcredentials.go:277-300 | keeps exactly the lines outside credential sections |
| Credentials.OutsideIff | pkg/gitcredentials/gitcredentials.go:277-300 | a line is kept iff the last section header at or above it, if there is one, is not the credential one |
| Credentials.OutsideStable | pkg/gitcredentials/gitcredentials.go:282-297 | what is kept has no credential header and is kept again |
| Credentials.RemoveUndoesConfigure | pkg/gitcredentials/gitcredentials.go:44-54 | for every git config and helper line, removing the helper from the config that configuring has rewritten gives back what configuring kept |

## Left out

- The buildkit parser, the directives and the syntax line: a Dockerfile is taken as buildkit's instruction nodes, in line order.
- BuildContextFiles and RemoveSyntaxVersion: easy members.
- DockerfileRename.ReplaceInDockerfile: says nothing new about a FROM that spans several lines, where the node is printed once per line.
- DockerfileExact.SimpleIff: leaves out lost references behind `:-` or `:+` and in ARG defaults, where a default, trimmed quotes or two wrong pieces together can make the right text by chance.
- DockerfileRename.RenamedUserIff: says nothing where the search loses something in the renamed file too.
- DockerfileRules.RuleExec: only the two rules named differ from the code; that an empty ENV is ignored, that a stage passes on no ARG and how FROM lines are resolved is as in the code.
- Extract.Extractor.ExtractNext: hard links, modes and times are not part of this model.
- DelayedWriter.DelayedWriter.Write: the writer behind it takes every write in full; its errors and short writes are not part of this model.
- File modes, owners and times, hard links and special files in archives; symlinks are placed but never followed.
- Files that vanish or cannot be read while an archive is written.
- Names with a slash, a backslash, "." or ".." in extracted paths: no claim is made about where they go.
- Git's quoting of unusual path names and submodules in a listing.
- Running the agent command locally, the generated script and the remote side: the remote is arbitrary.
- Inject.InjectAndExecute: stderr of a failed attempt as quoted in error messages is not modelled.
- The JSON and YAML encodings, null contexts in a config file, and the parsing of context options, which is an input of the commands.
- Daemon.Patrol.DoOnce: a missing agent home folder and a failing glob, after which nothing happens.
- The filter of findPorts to ports 1024 to 12000.
- Download.Machine.DownloadBinaries: says nothing of the contents when two locations of one name match or names share a folder or an absolute path, because a later one may then remove what an earlier one got.
- The ".exe" suffix on Windows; paths below a target folder are taken as clean.
- Download.Machine.HasChecksum: says nothing when it fails on a machine on which operations may fail, since hashing a file may fail for other reasons.
- Daemon.NeverBeforeStart: needs every workspace to be touched at the start, since the touch stops at the first failure.
- Watcher.Watcher.RunOnce: the forwarder is idempotent, and a failed call may or may not have taken effect.
- Upper and lower case is ASCII only.
- CLI wiring, logging, the desktop app, and clients of Docker, Kubernetes, ssh and the platform.
