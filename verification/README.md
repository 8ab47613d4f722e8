# Agent build pipeline: a Dafny model

This project models the core of the agent build superclass `RCS::DB::Build`
(`lib/rcs-db/build.rb`). The superclass turns a platform's agent template
into a patched, per-customer agent. Its parts are:

- **Builder registry.** `register` keys every class whose name starts with
  `Build` (except `Build` itself) by the downcased name with `build` removed.
  `factory(platform)` instantiates the class registered under that key, or
  raises "Builder for p not found".
- **`load`.** It fetches the platform's template archive and then the
  factory (deployment) item named by the request's ident. Each failure has
  its own message.
- **`unpack`.** It names and creates the workspace directory. It walks the
  archive's entries in order and writes each entry only when no file of
  that name exists yet. Every entry name is appended to the outputs, whether
  it was written or skipped.
- **`patch`.** It reads the core file and runs five literal-marker
  substitutions in a fixed order:
  1. the evidence key;
  2. the config key;
  3. the per-customer signature;
  4. the agent ID;
  5. the demo bytes, skipped in a demo build.

  Each substitution replaces the first occurrence of its marker, as Ruby's
  `String#[]=` does with a string index. A missing marker or a missing
  secret stops the patch with that marker's own error. The stage then writes
  the factory's encrypted config as a new file and appends its name to the
  outputs.
- **`create` and `clean`.** `create` runs `load`, `unpack`, `patch`,
  `scramble`, `melt`, `sign` and `pack` in that order. On the first error it
  runs `clean`, which removes the workspace tree when one was named, and
  re-raises the error unchanged. The base `scramble`, `melt`, `sign` and
  `pack` do nothing.

The project has one module per file:

| module | contents |
|---|---|
| `Wrappers` | Option and Result types. |
| `Sequences` | First-occurrence search and replace. |
| `Errors` | The exceptions and their messages. |
| `Registry` | `register` and the discovery fold. |
| `Patcher` | The five substitutions over a byte buffer. |
| `Extractor` | The entry loop of `unpack`. |
| `Builder` | Builder state, the stages, `create` and `clean`. |

How the model represents the world:

- **Disk.** A map from directory path to the files in it. Each directory's
  files are a map from relative name to bytes. No key lies under another
  key: whatever is below a directory belongs to that directory's files, so
  removing the key removes the whole tree, as `FileUtils.rm_rf` does.
- **Stages.** A stage is a function from a state to `Ok(state)` or
  `Raised(state, error)`.
- **Platform stages.** `create` takes the platform's `scramble`, `melt`,
  `sign` and `pack` as a hooks function. The lemmas about whole builds use
  the base implementations.
- **Calling stages out of order.** Every stage is total. A stage that runs
  without the instance variable it needs raises the error Ruby would raise
  there: `NilReceiver` for a NoMethodError on nil, `NoSuchFile` for a
  missing file.

Inputs that stand for things outside the model:

- MD5 digests are inputs of type `Option<seq<bv8>>`. `None` stands for a nil
  secret, where `Digest::MD5.digest` raises and the surrounding `rescue`
  reports the marker's error.
- `SecureRandom` output is an `Entropy` record.
  `WellFormedEntropy` fixes the sizes an actual run produces:
  - 16 bytes for each key tail;
  - four hexadecimal digits for `hex(2)`;
  - 24 demo bytes.
- The storage queries (`::Core`, `::Item`, `::Signature`) are maps. The
  workspace name, which the program takes from the clock, is a parameter.

Behaviour of the code worth knowing, which the model follows:

- `load` looks the template up first and returns before it queries the
  factory, so a missing factory item is reported only when the template
  exists.
- The agent ID payload replaces the first `RCS_` anywhere in the ident, not
  necessarily a prefix. An ident without `RCS_` fails with the agent ID
  error.
- `unpack` assigns the workspace path before `Dir.mkdir`. When a directory of
  that name already exists, `mkdir` raises. `create` then runs `clean`,
  which removes that pre-existing directory (`FailedBuildLeavesNoWorkspace`).
- A build that is not a demo writes the 24 supplied random bytes over the
  demo marker. Nothing guarantees that they differ from the marker's bytes.
- `patch` never writes the patched buffer back to the core file (see
  Findings). `Env.writeBack` chooses which `patch` a build runs: `false` is
  the program as written, and `true` is the corrected stage that stores the
  patched bytes.

## Model

| member | source | states |
|---|---|---|
| Sequences.FindFirst | lib/rcs-db/build.rb:91 | The offset found is an occurrence of the marker with no occurrence before it, and there is none exactly when the marker does not occur. |
| Sequences.ReplaceFirst | lib/rcs-db/build.rb:91 | `s[pat] = rep` fails exactly when `pat` does not occur in `s`. Otherwise the bytes before the first occurrence are kept, `rep` follows them, and then everything after the occurrence. |
| Sequences.ReplaceSameLength | lib/rcs-db/build.rb:89-91 | A replacement as long as its marker keeps the buffer length, writes `rep` at the first occurrence and leaves every other position unchanged. |
| Sequences.ReplacePrefix | lib/rcs-db/build.rb:117 | A pattern at offset 0 is the first occurrence, so the result is the replacement followed by the rest. |
| Errors.MarkerMessagesDistinct | lib/rcs-db/build.rb:88-128 | The five marker errors have pairwise different messages, so a caller can tell which marker failed. |
| Registry.PlatformKey | lib/rcs-db/build.rb:28-30 | For a builder name, removing the first `build` from the downcased name gives the downcased remainder after `Build`, and that key is non-empty. |
| Registry.WindowsKey | lib/rcs-db/build.rb:28-31 | `BuildWindows` is a builder name and registers under `windows`. |
| Registry.Register | lib/rcs-db/build.rb:27-33 | A builder name adds or replaces exactly its key and keeps every other binding. Any other name, including `Build` itself, leaves the registry unchanged. |
| Registry.LastFor | lib/rcs-db/build.rb:191-193 | The class chosen is a listed class registering under the key with no later listed class registering under it, and there is none exactly when no listed class does. |
| Registry.RegisterAllLookup | lib/rcs-db/build.rb:191-193 | After registering the discovered classes in order, a key maps to the last class registering under it. A key no class registers under keeps its earlier binding, or stays absent. |
| Registry.RegisteredKeys | lib/rcs-db/build.rb:191-193 | A registry built from nothing has a key exactly when some listed class registers under it. |
| Builder.Factory | lib/rcs-db/build.rb:39-45 | `factory(p)` fails exactly when `p` is unregistered, with the message "Builder for p not found". Otherwise it yields a fresh instance of the registered class with empty outputs and no workspace. |
| Builder.FactoryAfterDiscovery | lib/rcs-db/build.rb:39-45 | After discovery, `factory(p)` succeeds exactly when some class registers under `p`, and it instantiates the last such class. |
| Builder.LoadStage | lib/rcs-db/build.rb:47-58 | Fails with the core error exactly when the platform has no template, and with the factory error exactly when the template exists but the ident is unknown. After a factory error the instance holds no factory item, as the failed query leaves `@factory` nil. On success it holds that template and that item. It never touches the disk, the outputs or the workspace. |
| Builder.UnpackStage | lib/rcs-db/build.rb:60-78 | Always records the workspace path. Fails with the exists error exactly when the name is taken. On success the new directory holds the extracted template, the outputs gain the entry names in archive order, and the template copy is released. No directory other than the workspace's changes, entry names being file names inside the workspace. |
| Extractor.FirstData | lib/rcs-db/build.rb:67-74 | An entry of the name exists exactly when the name is among the entry names. |
| Extractor.FirstDataIsFirst | lib/rcs-db/build.rb:67-74 | The bytes found are those of an entry of that name with no entry of that name before it, which is the entry `File.exist?` lets through. |
| Extractor.ExtractedContents | lib/rcs-db/build.rb:67-74 | After extraction the files are the old ones plus one per entry name. Existing files are unchanged, and each new file holds the first entry of its name. |
| Extractor.ExtractFresh | lib/rcs-db/build.rb:67-74 | Extracting into an empty directory produces a file exactly for each entry name, holding the first such entry's bytes. |
| Extractor.ExtractPresentIsNoop | lib/rcs-db/build.rb:71 | When every entry's path exists, extraction writes nothing. |
| Extractor.ExtractIdempotent | lib/rcs-db/build.rb:67-74 | Re-extracting the same archive into the populated directory changes nothing. |
| Extractor.UnpackEntries | lib/rcs-db/build.rb:67-74 | The entry loop appends every entry name in order, one per entry, written or skipped. It leaves the files that one-by-one extraction leaves. |
| Patcher.Apply | lib/rcs-db/build.rb:89-94 | One substitution fails exactly when its payload could not be built or its marker is absent, and then reports its own error. Otherwise its result is the first-occurrence replacement. |
| Patcher.KeySubstitutionFrame | lib/rcs-db/build.rb:89-91 | A 16-byte digest plus 16 random bytes over a 32-byte marker keeps the length and writes the key at the first occurrence, and no other byte changes. |
| Patcher.ApplyAllAppend | lib/rcs-db/build.rb:88-128 | Running two lists of substitutions back to back is running the first, then the second on its output, unless the first failed. |
| Patcher.ApplyAllLength | lib/rcs-db/build.rb:88-128 | A successful run changes the length by exactly the sum of each payload's excess over its marker. |
| Patcher.ApplyAllFrame | lib/rcs-db/build.rb:88-128 | With same-length payloads, a successful run keeps the length and every byte outside the regions it overwrote. |
| Patcher.ApplyAllFailsAtFirst | lib/rcs-db/build.rb:88-128 | A failed run failed at a substitution every earlier one let pass, and reports that substitution's error. |
| Patcher.FailsExactlyAtStep | lib/rcs-db/build.rb:88-128 | With distinct errors, a run reports the k-th error exactly when the first k substitutions pass and the k-th fails. |
| Patcher.PatchContent | lib/rcs-db/build.rb:88-128 | A failed patch reports one of the five marker errors, and a demo build never reports the demo marker error. |
| Patcher.SubstitutionOrder | lib/rcs-db/build.rb:88-128 | There are five substitutions, or four in a demo build. They run in the order evidence key, config key, signature, agent ID, demo, each with its own error. |
| Patcher.PatchFailsAtFirstFailingMarker | lib/rcs-db/build.rb:88-128 | The patch fails with the k-th marker's error exactly when the first k substitutions pass and the k-th does not, so the first failure stops every later one. |
| Patcher.EvidenceKeyError | lib/rcs-db/build.rb:89-94 | The patch fails with "Evidence key marker not found" exactly when the log key is nil or the template lacks the evidence marker. |
| Patcher.AgentIdPayload | lib/rcs-db/build.rb:114-121 | The agent ID payload exists exactly when the ident contains `RCS_`, and it is as long as the ident. An ident starting with `RCS_` becomes the four hex digits followed by the rest, and no longer starts with `RCS_`. |
| Patcher.KeyPayloadsExact | lib/rcs-db/build.rb:88-128 | With the digest and random sizes of an actual run, every payload except the agent ID's is exactly as long as its marker. |
| Patcher.PatchLength | lib/rcs-db/build.rb:88-128 | A successful patch changes the template's length by the ident's length minus 14. The layout survives exactly when the ident is 14 bytes long, which the program never checks. |
| Patcher.PatchFrame | lib/rcs-db/build.rb:88-128 | With a 14-byte ident, a successful patch keeps the length and every byte outside the marker regions it overwrote. |
| Patcher.DemoFlag | lib/rcs-db/build.rb:124-128 | A demo build is exactly the four key substitutions. Otherwise the build also fails exactly when the demo marker is absent. On success it writes the 24 random bytes over the marker's first occurrence and keeps every other byte. |
| Builder.PatchWorkspace | lib/rcs-db/build.rb:80-138 | A missing core file raises before anything else. A failure changes nothing. Success means the core file exists, there is a factory item, all marker substitutions pass and the item has a config. Each failure raises its own error: a nil factory gives the evidence key error, a failed substitution gives that marker's error, and a factory without a config gives the nil-receiver error. Only the config name is appended to the outputs. |
| Builder.PatchWorkspaceFrame | lib/rcs-db/build.rb:130-137 | A successful patch adds the config file to the workspace and changes no other directory. No file other than the core and the config changes. |
| Builder.PatchAsWrittenDiscardsBuffer | lib/rcs-db/build.rb:84-128 | When the config file is not the core file: as written, a successful patch leaves the core file's bytes as they were, so whenever the patch changed the buffer, the stored file differs from it. |
| Builder.PatchStageStoresBuffer | lib/rcs-db/build.rb:84-128 | When the config file is not the core file: with the write-back, the core file holds the patched buffer. With well-formed secrets and a 14-byte ident it keeps its length. |
| Builder.PatchStageWorkspace | lib/rcs-db/build.rb:80-138 | With the write-back (the corrected stage of Findings), after a successful patch the workspace is the old one with the patched core and the new config file. |
| Builder.Run | lib/rcs-db/build.rb:166-173 | The stages started are a prefix of the list. A completed run started them all, and an aborted run started at least one. |
| Builder.RunAbortsAtLastStarted | lib/rcs-db/build.rb:166-179 | An aborted run stopped at the last stage it started. The stages before it completed, and that stage raised the reported error. |
| Builder.Clean | lib/rcs-db/build.rb:156-161 | Without a workspace nothing changes. Otherwise the workspace directory is gone and every other directory is kept. |
| Builder.CleanIdempotent | lib/rcs-db/build.rb:156-161 | Cleaning twice is cleaning once. |
| Builder.Create | lib/rcs-db/build.rb:163-181 | The stages started are a non-empty prefix of the pipeline, and a success started all seven. A failure leaves no workspace directory on disk. |
| Builder.CreateReraises | lib/rcs-db/build.rb:174-179 | A failed build re-raises, unchanged, the error of the last stage it started, after every earlier stage completed. It leaves that stage's state after `clean`. |
| Builder.BaseStagesChangeNothing | lib/rcs-db/build.rb:140-154 | The base `scramble`, `melt`, `sign` and `pack` complete and leave the state, outputs included, as it was. |
| Builder.CreateWithBaseStages | lib/rcs-db/build.rb:163-181 | With the base stages, `create` is `load`, `unpack`, `patch`, stopping at the first that raises. `clean` runs only on a failure. |
| Builder.BuildSucceedsExactlyWhen | lib/rcs-db/build.rb:163-181 | A fresh build succeeds exactly when all of these hold: the template and the factory item exist, the workspace name is free, the template has a core entry, every marker substitution on it passes, and the item has a config. |
| Builder.BuildFailsWithMarkerError | lib/rcs-db/build.rb:88-181 | A fresh build whose template and factory item exist, whose workspace name is free and whose template holds the core file, but whose marker substitutions fail, fails in `patch` after `load` and `unpack`. It re-raises that marker's error and leaves the disk as it was. |
| Builder.SuccessfulBuildWorkspace | lib/rcs-db/build.rb:163-181 | A successful build's outputs are the entry names in archive order followed by the config name. Its workspace holds exactly the extracted files and the new config. As written, the core file keeps its extracted bytes; with the write-back it holds the patched ones. |
| Builder.UnpackThenPatch | lib/rcs-db/build.rb:60-138 | After a `load` that found both inputs, passing `unpack` and `patch` leaves the extracted files plus the config, with the core as extracted (as written) or patched (with the write-back). The outputs gain the entry names, then the config name. |
| Builder.FailedBuildLeavesNoWorkspace | lib/rcs-db/build.rb:156-179 | A build failing in `load` removes the workspace a reused instance named in an earlier build, if any, and otherwise leaves the disk as it was. A build failing later removes exactly the directory of the new workspace's name, even one that existed before and made `mkdir` fail. |

## Left out

- Storage lookups (`::Core.where`, `GridFS.to_tmp`, `::Item.where`, `::Signature.where`) are maps and an optional digest. Queries, GridFS transfer and temp-file handling are not modelled.
- MD5 and `SecureRandom` are inputs. Hashing and randomness are outside the model. `WellFormedEntropy` and `WellFormedSecrets` state the sizes they produce.
- `encrypted_config` is an external crypto routine. Its output is an opaque optional byte string on the factory item, and `None` stands for a factory without configs.
- The zip library and the filesystem are maps. `FileUtils.mkdir_p` for entries in sub-directories is not modelled, because entry names are plain keys of the directory's file map. Entry names are taken to be relative file paths inside the workspace: an entry with `..` segments, which `File.join` would place outside it, and the directories that `mkdir_p` creates, which make `File.exist?` true so that a later entry of that name is skipped, are not represented.
- The workspace name comes from the clock (`Time.now`). It is a parameter, and its uniqueness is not modelled.
- Registry keys are Ruby Symbols (`plat.to_sym`). A platform key here stands for that Symbol; a call to `factory` with a String, which finds no builder in the source, is not represented.
- Dynamic `require` of the builder files and constant discovery are Ruby reflection. Registration is a fold of `register` over a given list of classes.
- The `@platform` that each subclass constructor sets is part of `BuilderClass`. A constructor that raises is not modelled.
- The request hash is mixed in the source: `patch` reads `params[:core]` and `params[:config]` with symbol keys but `params['demo']` with a string key. The model takes the core name, the config name and the demo flag as given, because how the caller's hash resolves keys is not part of this model.
- `trace` logging has no behavioural content.
- The core file handle that `patch` opens and never closes is not modelled.
- `patch` rewrites the agent ID inside the factory item's own `ident` string (`id = @factory.ident` followed by `id['RCS_'] = …` mutates that object). The model's factory item is immutable, so the in-memory item keeps its ident after `patch`. Every `create` starts with `load`, which fetches the item again, so only a caller inspecting the instance afterwards would see the difference.
- Ruby string encodings are not modelled. Idents and template bytes are byte strings.
- Builder.BuildSucceedsExactlyWhen: covers the base `scramble`, `melt`, `sign` and `pack` only, because a platform's overrides are not part of this model.
- Builder.SuccessfulBuildWorkspace: covers the base platform stages only, for the same reason. A platform's `pack` may add or replace outputs.
- Builder.CreateWithBaseStages: covers the base platform stages only, for the same reason. `Create`, `CreateReraises` and `RunAbortsAtLastStarted` hold for any hooks.
- Builder.FailedBuildLeavesNoWorkspace: covers the base platform stages only, for the same reason. It also relies on the disk convention under Builder.Clean.
- Builder.Clean: `FileUtils.rm_rf` removes the whole tree under the workspace path. The model removes one key of the disk map, which is the same only under the convention that no key lies under another key. The model does not enforce that convention, and a disk that breaks it, such as one holding `dir/sub` without `dir`, which no real filesystem can be in, is not represented faithfully.

## Findings

| source | as written | input that shows it | evidently intended | confidence | as-written member | corrected member |
|---|---|---|---|---|---|---|
| lib/rcs-db/build.rb:84-128 | `patch` opens the core file `rb+`, reads it into `content` and substitutes the five markers in that string, but never writes `content` back to the file. | A template whose core file holds all five markers, a factory with both keys and a config, and an agent signature. The patch succeeds, yet the core file on disk still holds the original markers. | The patched buffer replaces the core file's bytes, for example by rewinding and writing `content` before the config is saved. | not executed | Builder.PatchAsWrittenDiscardsBuffer | Builder.PatchStageStoresBuffer |
