# changelog-cli in Dafny

A model of `changelog.py`, a small tool that keeps a changelog as a set of
sealed releases. The releases directory holds one subdirectory per version,
named by the version string. Each subdirectory holds the entry files moved into
it and a `manifest.json` that lists its predecessor versions. The accumulation
directory holds pending entry files until the next `release` command seals them.

The model has four modules:

- `SemVer` (`semver.dfy`) defines version values and their precedence, following
  section 11 of Semantic Versioning 2.0.0. The tool gets these from the `semver`
  library. The module proves that precedence is a total preorder. Two versions
  tie exactly when they differ only in build metadata.
- `Resolver` (`resolver.dfy`) defines `Latest`, which is what
  `get_previous_version` computes from a listing of the releases directory. Its
  lemmas prove when the resolver fails and when it returns `None`. They also
  prove that the result is a maximum and the first maximum in listing order, and
  that the listing order decides only among versions of equal precedence.
- `Changelog` (`changelog.dfy`) defines the class `Store`. The class holds the
  releases directory and the accumulation directory as maps and updates them in
  place. Its methods are `get_previous_version` (a loop proved equal to
  `Latest`), `release` (resolve the predecessors, `mkdir`, move the entry files,
  write the manifest) and the version choice at the start of `generate`. The
  model follows `release` to its failure at `json.dump`, where the code fails.
- `Registry` (`registry.dfy`) models `register_subcommand`. The class `Table` is
  the module-level dict `subcommand_handlers`. The class `Decorator` is the
  `decorate` closure with the alias set it captures and extends.
- `Wrappers` (`wrappers.dfy`) holds `Option`, `Result` and `Outcome`. They stand
  for Python's `None` and for raised exceptions.

## Behaviour that follows the code

- `release` resolves the default predecessor before it calls `os.mkdir`. A
  releases directory with an unparsable subdirectory therefore makes `release`
  fail with `InvalidVersion` even when the target version already exists. This
  happens only when no predecessor list is given.
- Two release directories can have equal precedence, for example `1.0.0+a` and
  `1.0.0+b`. If `semver.compare` accepts parsed versions (see "## Left out"),
  `get_previous_version` then returns the first one listed, because it replaces
  the running maximum only when `compare > 0`.
- A release directory whose name does not parse makes `get_previous_version`
  raise. The model reports this as `InvalidVersion` with the first such name.
- `release` without `--previous-versions` over exactly one release directory
  fails at `json.dump` (line 58). No `compare` runs in that case. The
  predecessor list then holds the parsed `VersionInfo` of line 48, which
  `json.dump` cannot serialise. By that point the release directory exists and
  the entry files have moved, so the command leaves a release directory whose
  `manifest.json` is truncated. The model returns `ManifestUnserializable`.
  Over two or more release directories, line 35 calls `semver.compare`. The
  same outcome then holds only if `compare` accepts parsed versions (see
  "## Left out"). If it does not, the command raises at line 35, before
  `os.mkdir`, and nothing changes. Only an explicit predecessor list, or a
  first release on an empty store, gets a complete manifest.
- `os.mkdir` at line 52 also refuses the targets `""`, `"."` and `".."`,
  because the joined path names the releases directory itself or its parent.
  The model reports these as `ReleaseExists` before anything changes.
- `generate` uses its version argument only when it is a non-empty string.
  Otherwise it falls back to the latest release.
- The `decorate` closure adds the command's own name to the alias set it
  captured, so the set grows with every decoration. If one decorator were
  applied to a second function, the first function's names would be rebound as
  well. `Registry.BindOverrides` states this.

## Model

| member | source | states |
|---|---|---|
| `SemVer.CompareAntisymmetric` | changelog.py:35 | Swapping the two versions negates the precedence comparison. |
| `SemVer.CompareZeroIff` | changelog.py:35 | Two versions compare equal exactly when major, minor, patch and pre-release agree. Build metadata is ignored. |
| `SemVer.CompareTransitive` | changelog.py:35 | "Not higher than" is transitive. |
| `SemVer.CompareStrictTransitive` | changelog.py:35 | "Lower than" is transitive, also through one step of equal precedence. |
| `SemVer.PrecedenceExample` | changelog.py:35 | The section 11 chain 1.0.0-alpha < 1.0.0-alpha.1 < … < 1.0.0-rc.1 < 1.0.0 holds, as do 1.0.0 < 2.0.0 < 2.1.0 < 2.1.1. |
| `Resolver.Keep` | changelog.py:35-36 | The current version replaces the running maximum exactly when there is none or the current one is strictly higher; otherwise the maximum is kept. The result is never lower than either input. |
| `Resolver.LatestFails` | changelog.py:29-37 | The resolver fails exactly when some subdirectory name does not parse, and it reports the first such name in listing order. |
| `Resolver.LatestNone` | changelog.py:29-37 | Non-directories are skipped. The result is `None` exactly when the releases directory has no subdirectory. |
| `Resolver.LatestIsFirstMaximum` | changelog.py:33-36 | A returned version belongs to a subdirectory, and no subdirectory has higher precedence. It comes from the first subdirectory of highest precedence, because every earlier one is strictly lower. |
| `Resolver.LatestIndependentOfOrder` | changelog.py:30-36 | Two listings of the same entries agree on failure, on `None`, and on the precedence of the returned version. |
| `Resolver.LatestExample` | changelog.py:29-37 | Releases 1.0.0, 2.0.0 and 1.5.0 beside a plain file resolve to 2.0.0. |
| `Changelog.Store.GetPreviousVersion` | changelog.py:29-37 | The loop over the listing returns exactly `Latest` of the directory's entries. |
| `Changelog.Predecessors` | changelog.py:42-48 | An explicit list, including an empty one, is kept element by element. Without one, the list is empty when there is no release and the single latest version otherwise. |
| `Changelog.Store.Release` | changelog.py:41-60 | A default-predecessor failure, or a target `os.mkdir` refuses (an existing entry, `""`, `.`, `..`), fails with nothing changed. Otherwise the new directory holds exactly the accumulation's entry files under their names and contents, those files leave the accumulation, and other files and releases are untouched. The manifest records the predecessor strings and the command succeeds when all predecessors are strings. When a parsed version is among them, the manifest is truncated and the command fails with `ManifestUnserializable`. |
| `Changelog.Store.MoveEntryFiles` | changelog.py:53-55 | Every `.yml`/`.yaml` file of the accumulation moves, with its name and contents, into the release directory. Every other file stays. Nothing else changes. |
| `Changelog.Store.WriteManifest` | changelog.py:57-60 | The manifest is written with the predecessor strings and the call succeeds when every predecessor is a string. Otherwise the manifest is left truncated and the call fails. Entry files and everything else stay. |
| `Changelog.ManifestFor` | changelog.py:57-60 | A predecessor list of strings gives a complete manifest holding exactly those strings in order. Any other list gives a truncated one. |
| `Changelog.PredecessorsSerializable` | changelog.py:42-58 | The manifest can be serialised exactly when an explicit list is given or there is no release yet. |
| `Changelog.Store.Generate` | changelog.py:65-69 | A non-empty version argument is the target and never consults the store. Otherwise the target is the latest release, `None` for an empty store, or the resolver's failure. |
| `Changelog.EntryFiles` | changelog.py:54 | Exactly the files that pass the suffix filter are kept, with unchanged contents. |
| `Changelog.SuffixExamples` | changelog.py:54 | `a.yml`, `b.yaml` and `.yaml` pass the filter. `notes.txt` and `c.yml.bak` do not. |
| `Changelog.EntryFilesExample` | changelog.py:53-55 | With `a.yml`, `b.yaml` and `notes.txt` pending, the first two are sealed and `notes.txt` remains. |
| `Changelog.SealExample` | changelog.py:41-60 | `release 1.2.0` over release 1.0.0 without `--previous-versions` moves `a.yml` and `b.yaml` and leaves `notes.txt`. It then fails at `json.dump` with a truncated manifest. |
| `Changelog.SealExplicitExample` | changelog.py:41-60 | The same release with `--previous-versions 1.0.0` succeeds, and the manifest records `1.0.0`. |
| `Changelog.FirstReleaseExample` | changelog.py:41-60 | The first release on an empty store succeeds with an empty predecessor list. |
| `Changelog.DuplicateExample` | changelog.py:52 | Sealing an existing version, or the name `.`, fails and leaves the release and the pending file as they were. |
| `Registry.Bind` | changelog.py:23-24 | Every bound name maps to the function. Every other key keeps its binding. No other key appears. |
| `Registry.Decorator.constructor` | changelog.py:15-16 | The decorator captures `name` and a set holding exactly the given aliases. |
| `Registry.Decorator.Decorate` | changelog.py:17-25 | The alias set gains `name`, or the function's `__name__` when `name` is `None`. Every alias is bound to the function and other keys are kept. The function itself is returned. |
| `Registry.BindOverrides` | changelog.py:16-24 | A decoration whose names include an earlier one's replaces all of the earlier bindings. |
| `Registry.RegisterCommands` | changelog.py:40-63 | The script's two registrations give `rel`/`release` to `release` and `gen`/`generate` to `generate`, and nothing else. |
| `Registry.CommandTable` | changelog.py:40-63 | The two bindings produce exactly the four-entry table. |

## Left out

- The command-line block (changelog.py:80-103) is not modelled. It holds argparse setup, logging configuration and dispatch through `subcommand_handlers`.
- The logging calls (changelog.py:50, 71) are not modelled. They have no effect on state.
- `semver.VersionInfo.parse` is a foreign call. It is a parameter `parse: string -> Option<Version>`, with `None` where it raises. No parser is modelled, so no round trip between strings and versions is claimed.
- `semver.compare` is modelled by its documented meaning, the precedence of section 11 of Semantic Versioning 2.0.0. The library documents `compare` as taking version strings, while line 35 passes parsed `VersionInfo` objects. The model assumes it accepts them. If it does not, `get_previous_version` raises at line 35 once there are two or more release directories. That failure is not modelled.
- File-system calls are operations on two maps. `os.scandir` on the releases directory is a listing that the caller supplies, which must name every entry once. `os.listdir` on the accumulation directory is visited in an arbitrary order.
- `Changelog.Store.Release` models `os.mkdir` failing with FileExistsError only. That covers an existing entry of that name, `""`, `"."` and `".."`. It does not model a missing releases directory, missing permissions, or version strings containing path separators (the version is not validated at line 52). Such a version is treated as a single directory name.
- `Changelog.Store.Release` treats every `shutil.move` as succeeding. A failed move or an interruption partway through the loop is not modelled. The one failure modelled after the directory exists is `json.dump` raising on a parsed version.
- `Changelog.Store.WriteManifest` does not model the bytes of `manifest.json`. A complete manifest is the list of predecessor strings. A truncated one is a single value `Truncated`, without the prefix that `json.dump` had written before it raised.
- The traversal, ordering, deduplication and output that `generate` announces (changelog.py:73-77) are TODO comments with no code. Only the choice of target version is modelled.
- Applying `decorate` to an object without `__name__` is modelled by a handler whose name is `None`. Such a decoration binds only the captured aliases.
