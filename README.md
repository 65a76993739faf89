# Authentication plugins and documentation task: a Dafny model

This project models the two pieces of the OMH authentication plugins that
carry logic of their own, and proves what they promise.

1. **The `copyMarkdownDocs` Gradle task** (`plugin/docsTasks.gradle.kts`). Module `DocsTasks` covers
   the pure path computations under its file-system calls:
   - `prefixFilename`;
   - the mapping from a Gradle project path such as `:packages:plugin-facebook`
     to a fragment of the `docs/markdown` tree;
   - the choice of each project's destination directory;
   - the filter that picks Markdown files out of a walk;
   - the relative path under which each file is copied;
   - where a README copy goes;
   - the literal `./docs/` to `../` link rewrite.

   The Kotlin standard-library operations these rely on (`split`,
   `filter`, `joinToString`, `indexOf`, `contains`, `slice`,
   `replace`, `startsWith`, `equals(ignoreCase)`, `substringAfterLast`)
   are in `KotlinText`, with their Kotlin semantics on text of Unicode
   scalar values (see "Left out" for UTF-16). The `java.io.File`
   behaviour the script depends on (normalised paths, `name`, `parent`,
   `File(parent, child)`) is in `JavaIo`.
2. **The Facebook adapter** (`FacebookAuthClient.kt`). Module `FacebookAuth` covers:
   - the mapping of a Graph `/me` object to an `OmhUserProfile`;
   - the `/me` and revoke callbacks;
   - the revoke request;
   - the order of revoke and log-out in `revokeToken`;
   - the login intent and `initialize`.

   The Facebook SDK's process-wide session (current access token and profile)
   is the class `SdkSession`. Executing a Graph request is a function
   parameter that maps the request to the server's response.

`Wrappers` holds the `Option` and `Result` types.

Where the plugin's contract and its code disagree, the model follows the code:
- A `/me` object that lacks a required member does not fail the `getUser`
  task. The `JSONException` is thrown inside the SDK callback, before the
  continuation is resumed. The model records this as `ThrewInCallback`,
  which is distinct from `ResumedWithException`.
- The same holds when the response has no error exception: the `!!`
  throws `NullPointerException`.
- `getUserRequest` sends `/me` even without a current token. The outcome
  then depends on the server's response, not on a local
  "not authenticated" check.

## Model

| member | source | states |
|---|---|---|
| DocsTasks.PrefixFilename | plugin/docsTasks.gradle.kts:1-6 | `prefixFilename`: `File(file.parent, prefix + file.name)`; `PrefixFilenameKeepsParent` states its result |
| DocsTasks.PrefixFilenameKeepsParent | plugin/docsTasks.gradle.kts:1-6 | the result keeps the file's parent and is named `prefix + name`; its path is the parent's names plus that one name |
| JavaIo.FromPathString | plugin/docsTasks.gradle.kts:1-6 | a normalised `File` path printed and parsed back is the same path, which is what `file.parent` (a String) goes through before `File(String, String)` |
| JavaIo.ResolveAgainstParentPath | plugin/docsTasks.gradle.kts:1-6 | resolving a child against `file.parent` passed as a String is the same as resolving it against the parent directory |
| JavaIo.ParentPath | plugin/docsTasks.gradle.kts:2 | `file.parent`: null for `/`, the empty path and a single relative name, otherwise the parent's path string; `ResolveAgainstParentPath` states what it carries |
| JavaIo.ResolveString | plugin/docsTasks.gradle.kts:5 | `File(String, String)`: a null parent gives `File(child)`, otherwise the parsed parent with the child resolved under it |
| JavaIo.FromString | plugin/docsTasks.gradle.kts:5 | `File(String)`: absolute exactly when the string starts with `/`, names split on `/` with empty ones dropped; always a valid path; `FromPathString` states that it parses `file.path` back |
| JavaIo.PathString | plugin/docsTasks.gradle.kts:2 | `file.path`, the normalised path string that `file.parent` returns for the parent; `FromPathString` states that it parses back |
| JavaIo.Parent | plugin/docsTasks.gradle.kts:2 | `file.parent` on the normalised form; `ResolveName` and `PrefixFilenameKeepsParent` state it |
| JavaIo.Name | plugin/docsTasks.gradle.kts:3 | `file.name`, the last name; `ResolveName` and `PrefixFilenameKeepsParent` state it |
| JavaIo.Resolve | plugin/docsTasks.gradle.kts:9-10 | `File(File, String)` keeps the parent's absoluteness, extends its names and yields a valid path from a valid parent |
| JavaIo.ResolveName | plugin/docsTasks.gradle.kts:78 | `File(dir, name)` for a single name is the file of that name whose parent is `dir` |
| KotlinText.Split | plugin/docsTasks.gradle.kts:33 | `split(":")` never returns an empty list; its first piece is a prefix of the input; no piece contains the delimiter |
| KotlinText.JoinSplit | plugin/docsTasks.gradle.kts:33 | joining the pieces of a split with the delimiter gives the input back |
| KotlinText.SplitJoin | plugin/docsTasks.gradle.kts:43 | splitting a join of delimiter-free pieces gives back the pieces |
| KotlinText.DropEmpty | plugin/docsTasks.gradle.kts:33 | `filter { it.isNotEmpty() }` keeps exactly the non-empty pieces and never lengthens the list |
| KotlinText.DropEmptyAppend | plugin/docsTasks.gradle.kts:33 | the filter keeps the input order: filtering a concatenation concatenates the filtered halves (with `DropEmptyOfNonEmpty` and `DropEmptyOfEmpties` this fixes the result exactly) |
| KotlinText.DropEmptyOfNonEmpty | plugin/docsTasks.gradle.kts:33 | a list without empty pieces passes the filter unchanged |
| KotlinText.DropEmptyOfEmpties | plugin/docsTasks.gradle.kts:33 | a list of empty pieces filters to nothing |
| KotlinText.Join | plugin/docsTasks.gradle.kts:43 | `joinToString(sep)`; `JoinSplit` and `SplitJoin` tie it to `split` |
| KotlinText.SplitPieceOccurs | plugin/docsTasks.gradle.kts:33-36 | every piece of a split is a substring of the split string |
| KotlinText.IndexOf | plugin/docsTasks.gradle.kts:113 | `indexOf` is -1 or an index at which the pattern occurs |
| KotlinText.IndexOfFirst | plugin/docsTasks.gradle.kts:113 | no earlier index holds an occurrence, and `indexOf` is -1 exactly when the pattern occurs nowhere |
| KotlinText.Contains | plugin/docsTasks.gradle.kts:36 | `contains("packages")` is `indexOf >= 0`, a substring test that differs from the component test of line 40; stated by `SplitPieceOccurs` and `FragmentPackagesSubstringOnly` |
| KotlinText.Last | plugin/docsTasks.gradle.kts:46 | `last()` of a non-empty list; `FragmentLastPart` states the branch that uses it |
| KotlinText.IndexOfElement | plugin/docsTasks.gradle.kts:40 | list `indexOf` is the first index holding the element, and -1 exactly when the element is absent |
| KotlinText.Slice | plugin/docsTasks.gradle.kts:38-43 | `slice(IntRange)` is empty on an empty range, otherwise it holds the elements from `first` to `last` inclusive |
| DocsTasks.DestPathTreeFragment | plugin/docsTasks.gradle.kts:32-52 | the fragment of `ProjectPartsAndName`, branch by branch; its cases are stated by `FragmentOfRootPath`, `FragmentAfterPackages`, `FragmentPackagesLast`, `FragmentPackagesSubstringOnly` and `FragmentLastPart` |
| DocsTasks.PathPartsEmptyIff | plugin/docsTasks.gradle.kts:33-35 | a project path has no non-empty component exactly when it consists of `:` only |
| DocsTasks.PathParts | plugin/docsTasks.gradle.kts:33 | `split(":").filter { it.isNotEmpty() }`; stated by `PathPartsEmptyIff` and `PackagePathParts` |
| DocsTasks.FragmentOfRootPath | plugin/docsTasks.gradle.kts:48-51 | a path of `:` only (the root's `:`) gives the project name as fragment |
| DocsTasks.FragmentAfterPackages | plugin/docsTasks.gradle.kts:36-43 | with several components and a component equal to `packages`, the fragment is the components after its first occurrence, joined by `/` |
| DocsTasks.FragmentPackagesLast | plugin/docsTasks.gradle.kts:36-43 | when `packages` first occurs as the last component, the fragment is empty |
| DocsTasks.FragmentPackagesSubstringOnly | plugin/docsTasks.gradle.kts:36-43 | when `packages` is only a substring of a component, `indexOf` is -1 and every component is kept, joined by `/` |
| DocsTasks.FragmentLastPart | plugin/docsTasks.gradle.kts:44-47 | a single component, or a path without `packages`, gives the last component |
| DocsTasks.PackagePathParts | plugin/docsTasks.gradle.kts:33 | `:packages:<child>` has exactly the components `packages` and `<child>` |
| DocsTasks.PackageFragment | plugin/docsTasks.gradle.kts:36-43 | `:packages:<child>` maps to the fragment `<child>` (`:packages:plugin-facebook` to `plugin-facebook`) |
| DocsTasks.ProjectDocsDestDir | plugin/docsTasks.gradle.kts:31-73 | `ProjectDocsDestDir`: the base for the root, `prefixFilename("_", File(base, fragment))` otherwise; stated by `RootDestination`, `NonRootDestination` and `EmptyFragmentDestination` |
| DocsTasks.RootDestination | plugin/docsTasks.gradle.kts:54-56 | the root project's destination is the base Markdown directory itself |
| DocsTasks.NonRootDestination | plugin/docsTasks.gradle.kts:57-65 | another project's destination is `base/<fragment>` with `_` prepended to its last name |
| DocsTasks.EmptyFragmentDestination | plugin/docsTasks.gradle.kts:36-65 | an empty fragment makes the destination the sibling `_<base name>` of the base directory |
| DocsTasks.PackageDestination | plugin/docsTasks.gradle.kts:31-73 | `:packages:<child>` is documented in `base/_<child>` (`base/_plugin-facebook` for the Facebook plugin) |
| DocsTasks.MarkdownDocsOutputDirBase | plugin/docsTasks.gradle.kts:8-10 | `<root>/docs/markdown`; stated by `MarkdownOutputDir` |
| DocsTasks.MarkdownOutputDir | plugin/docsTasks.gradle.kts:8-10 | the base Markdown directory is the root directory's names followed by `docs` and `markdown` |
| DocsTasks.PackageDocsDir | plugin/docsTasks.gradle.kts:8-73 | `:packages:<child>` is documented in `<root>/docs/markdown/_<child>` |
| KotlinText.LastIndexOfChar | plugin/docsTasks.gradle.kts:99 | `lastIndexOf` is the index of the last occurrence, and -1 exactly when there is none |
| KotlinText.SubstringAfterLast | plugin/docsTasks.gradle.kts:99 | `substringAfterLast` is the default when the delimiter is absent, otherwise the delimiter-free tail after the last delimiter |
| DocsTasks.Extension | plugin/docsTasks.gradle.kts:99 | `File.extension`, the name after its last `.`; stated by `MdExtensionIff` |
| DocsTasks.MdIgnoringCase | plugin/docsTasks.gradle.kts:99 | `equals("md", ignoreCase = true)` accepts exactly `md`, `mD`, `Md` and `MD` |
| KotlinText.EqualsIgnoreCase | plugin/docsTasks.gradle.kts:99 | `equals(other, ignoreCase = true)`: same length and each pair of characters equal after ASCII upper-casing; `MdIgnoringCase` states it for `md` |
| DocsTasks.MdExtensionIff | plugin/docsTasks.gradle.kts:99 | the extension is `md` ignoring case exactly when the name ends in `.md` ignoring case |
| DocsTasks.MarkdownSourceCases | plugin/docsTasks.gradle.kts:97-102 | a walk entry is copied exactly when it is a file, its extension is one of the four spellings of `md`, and its canonical path does not start with the output directory's |
| DocsTasks.SiblingOfOutputDirExcluded | plugin/docsTasks.gradle.kts:101 | the exclusion is a string-prefix test, so files under a sibling whose name extends the output directory's are excluded as well |
| KotlinText.StartsWith | plugin/docsTasks.gradle.kts:101 | `startsWith(prefix)` is a plain prefix test on the string; `SiblingOfOutputDirExcluded` states what that means for the filter |
| DocsTasks.IsMarkdownSource | plugin/docsTasks.gradle.kts:97-102 | the walk filter; spelled out by `MarkdownSourceCases` |
| DocsTasks.SelectMarkdown | plugin/docsTasks.gradle.kts:96-102 | the selected files are exactly the walk entries that pass the filter |
| DocsTasks.SelectMarkdownAppend | plugin/docsTasks.gradle.kts:96-102 | the selection keeps the walk order: selecting from a concatenation concatenates the selections |
| DocsTasks.RelativePathInProject | plugin/docsTasks.gradle.kts:109-116 | the slice after `indexOf(<name>/docs/)`; stated by `RelativePathAfterMarker` and `RelativePathWithoutMarker` |
| DocsTasks.DocsMarker | plugin/docsTasks.gradle.kts:109 | `initialIgnoredPathComponent`, `<project name>/docs/`; `RelativePathAfterMarker` and `RelativePathWithoutMarker` state what the slice keeps |
| DocsTasks.RelativePathAfterMarker | plugin/docsTasks.gradle.kts:109-116 | when `<project name>/docs/` occurs, the relative path is what follows its first occurrence |
| DocsTasks.RelativePathWithoutMarker | plugin/docsTasks.gradle.kts:109-116 | when it does not occur, `indexOf` is -1 and the slice drops the first (marker length - 1) characters, or yields `""` for a shorter path |
| DocsTasks.MarkdownCopies | plugin/docsTasks.gradle.kts:110-118 | one `copyTo(File(destDir, relative path))` per file, in order; stated by `CopyPlanSound` |
| DocsTasks.MarkdownCopyPlan | plugin/docsTasks.gradle.kts:96-118 | the copies of the walk's selected files; stated by `CopyPlanSound` |
| DocsTasks.CopyPlanSound | plugin/docsTasks.gradle.kts:96-118 | copy `k` of the plan reads the `k`-th selected file, in walk order, and writes it to the destination directory's names followed by the names of its path after `<project name>/docs/`; one copy per selected file, each from a Markdown file of the walk |
| DocsTasks.ReadmeCopyDestination | plugin/docsTasks.gradle.kts:76-79 | where a README is copied, if at all; stated by `ReadmeDestination` |
| DocsTasks.ReadmeDestination | plugin/docsTasks.gradle.kts:76-79 | a README is copied exactly when it exists and the project is not the root, and then to `_README_ORIGINAL.md` directly inside the destination |
| KotlinText.Replace | plugin/docsTasks.gradle.kts:87 | `replace(target, replacement)` by a left-to-right scan; `ReplaceAtFirstOccurrence` ties it to Kotlin's `indexOf` loop |
| KotlinText.ReplaceAtFirstOccurrence | plugin/docsTasks.gradle.kts:87 | `replace` keeps the text up to the first occurrence, substitutes it, and goes on after it; with no occurrence the text is unchanged |
| KotlinText.ReplaceLength | plugin/docsTasks.gradle.kts:87 | a replacement no longer than the target never lengthens the text, and a strictly shorter one shortens it when the target occurs |
| KotlinText.ReplaceChangesIffOccurs | plugin/docsTasks.gradle.kts:87 | with a strictly shorter replacement, `replace` changes the text exactly when the target occurs |
| DocsTasks.RewriteLocalDocsLinks | plugin/docsTasks.gradle.kts:87 | the literal `./docs/` to `../` step; stated by the two lemmas below |
| DocsTasks.RewriteChangesIffLocalLink | plugin/docsTasks.gradle.kts:87 | the literal rewrite changes its input exactly when the input contains `./docs/` |
| DocsTasks.RewriteAtFirstLocalLink | plugin/docsTasks.gradle.kts:87 | in its input, the first `./docs/` becomes `../`, the text before it is kept and the rest is rewritten the same way |
| FacebookAuth.TextOf | packages/plugin-facebook/src/main/java/com/openmobilehub/android/auth/plugin/facebook/FacebookAuthClient.kt:65-68 | the text org.json's `getString` gives for a value: the string itself, or the value's printed form (`null` for JSON null) |
| FacebookAuth.GetString | packages/plugin-facebook/src/main/java/com/openmobilehub/android/auth/plugin/facebook/FacebookAuthClient.kt:65-66 | `getString(key)` fails with a missing-value error only when the key is absent, and otherwise coerces the value to text; stated by `ProfileFromMe` |
| FacebookAuth.OptString | packages/plugin-facebook/src/main/java/com/openmobilehub/android/auth/plugin/facebook/FacebookAuthClient.kt:67 | `optString(key, fallback)` gives the fallback only when the key is absent; stated by `MissingEmailIsEmpty` |
| FacebookAuth.GetJsonObject | packages/plugin-facebook/src/main/java/com/openmobilehub/android/auth/plugin/facebook/FacebookAuthClient.kt:68 | `getJSONObject(key)` fails when the key is absent or the value is not an object; stated by `ProfileFromMe` |
| FacebookAuth.ProfileFromMe | packages/plugin-facebook/src/main/java/com/openmobilehub/android/auth/plugin/facebook/FacebookAuthClient.kt:64-69 | a profile is built exactly when `first_name`, `last_name` and `picture.data.url` are present with objects on the way; its fields are those members' text in constructor order, with `email` optional; otherwise the error is the first failing accessor's |
| FacebookAuth.ProfileFromMeObject | packages/plugin-facebook/src/main/java/com/openmobilehub/android/auth/plugin/facebook/FacebookAuthClient.kt:64-69 | every profile is read back unchanged from the `/me` object that carries it |
| FacebookAuth.MissingEmailIsEmpty | packages/plugin-facebook/src/main/java/com/openmobilehub/android/auth/plugin/facebook/FacebookAuthClient.kt:67 | a missing `email` ends the mapping exactly as an empty one would; a built profile then has `email == ""` |
| FacebookAuth.MeRequest | packages/plugin-facebook/src/main/java/com/openmobilehub/android/auth/plugin/facebook/FacebookAuthClient.kt:58-59 | `newMeRequest` with the current token and the `fields` parameter; stated by `MeFieldsAreMappedMembers` and `GetUserRequest` |
| FacebookAuth.ErrorException | packages/plugin-facebook/src/main/java/com/openmobilehub/android/auth/plugin/facebook/FacebookAuthClient.kt:62 | `response?.error?.exception`: absent when there is no error or the error has no exception; `MeCallback` and `RevokeCallback` state how each case ends |
| FacebookAuth.MeCallback | packages/plugin-facebook/src/main/java/com/openmobilehub/android/auth/plugin/facebook/FacebookAuthClient.kt:60-73 | the callback resumes with a profile exactly when the object is present and complete; a null object resumes with the error's exception, or throws `NullPointerException` without resuming when there is none; an incomplete object throws the accessor's exception |
| FacebookAuth.MeFieldsAreMappedMembers | packages/plugin-facebook/src/main/java/com/openmobilehub/android/auth/plugin/facebook/FacebookAuthClient.kt:75-77 | the `fields` parameter lists exactly the top-level members the mapping reads, in that order |
| FacebookAuth.RevokeRequest | packages/plugin-facebook/src/main/java/com/openmobilehub/android/auth/plugin/facebook/FacebookAuthClient.kt:85-88 | the revoke `GraphRequest`; stated by `RevokePathSegments` and `RevokeWithoutProfile` |
| FacebookAuth.ProfileId | packages/plugin-facebook/src/main/java/com/openmobilehub/android/auth/plugin/facebook/FacebookAuthClient.kt:87 | `Profile.getCurrentProfile()?.id`; stated by `RevokePathSegments` and `RevokeWithoutProfile` |
| FacebookAuth.FormatNullable | packages/plugin-facebook/src/main/java/com/openmobilehub/android/auth/plugin/facebook/FacebookAuthClient.kt:87 | `"%s".format` of a nullable id: the id, or `null`; stated by `RevokePathSegments` and `RevokeWithoutProfile` |
| FacebookAuth.RevokePathSegments | packages/plugin-facebook/src/main/java/com/openmobilehub/android/auth/plugin/facebook/FacebookAuthClient.kt:85-88 | the revoke request is a DELETE with the current token, whose path has the profile id (or `null`) as its only segment before `permissions` |
| FacebookAuth.RevokeWithoutProfile | packages/plugin-facebook/src/main/java/com/openmobilehub/android/auth/plugin/facebook/FacebookAuthClient.kt:87 | with no current profile the path is `/null/permissions` |
| FacebookAuth.RevokeCallback | packages/plugin-facebook/src/main/java/com/openmobilehub/android/auth/plugin/facebook/FacebookAuthClient.kt:89-95 | the revoke resumes normally exactly when the response has no error; it resumes with the error's exception when there is one, and throws `NullPointerException` without resuming when the error has none |
| FacebookAuth.SdkSession.LogOut | packages/plugin-facebook/src/main/java/com/openmobilehub/android/auth/plugin/facebook/FacebookAuthClient.kt:45 | `LoginManager.logOut` clears the current access token and profile |
| FacebookAuth.FacebookAuthClient.constructor | packages/plugin-facebook/src/main/java/com/openmobilehub/android/auth/plugin/facebook/FacebookAuthClient.kt:19 | the client keeps the scopes it is built with |
| FacebookAuth.FacebookAuthClient.Initialize | packages/plugin-facebook/src/main/java/com/openmobilehub/android/auth/plugin/facebook/FacebookAuthClient.kt:22-28 | initialisation does nothing and completes normally |
| FacebookAuth.FacebookAuthClient.GetLoginIntent | packages/plugin-facebook/src/main/java/com/openmobilehub/android/auth/plugin/facebook/FacebookAuthClient.kt:30-34 | the intent starts `FacebookLoginActivity` and carries the constructor's scopes unchanged under `scopes`, its only extra |
| FacebookAuth.FacebookAuthClient.GetUserRequest | packages/plugin-facebook/src/main/java/com/openmobilehub/android/auth/plugin/facebook/FacebookAuthClient.kt:57-82 | `/me` is requested with the current token and the requested fields, and the outcome is the callback's on the server's response |
| FacebookAuth.FacebookAuthClient.SignOut | packages/plugin-facebook/src/main/java/com/openmobilehub/android/auth/plugin/facebook/FacebookAuthClient.kt:44-46 | signing out clears the SDK's current token and profile |
| FacebookAuth.FacebookAuthClient.RevokeTokenRequest | packages/plugin-facebook/src/main/java/com/openmobilehub/android/auth/plugin/facebook/FacebookAuthClient.kt:84-99 | the revoke request is built from the current session, and the outcome is the revoke callback's on the server's response |
| FacebookAuth.FacebookAuthClient.RevokeToken | packages/plugin-facebook/src/main/java/com/openmobilehub/android/auth/plugin/facebook/FacebookAuthClient.kt:48-53 | the revoke is sent first; the session is logged out only when it resumes normally, and otherwise left unchanged |

## Left out

- File-system effects of the docs task are not modelled:
  - existence tests, `deleteRecursively`, `mkdir`, `copyTo`,
    `readText`/`writeText`, `walk`/`walkTopDown`, canonical-path
    resolution (docsTasks.gradle.kts:67-69, 79-83, 96, 105-106, 117);
  - what they would read is passed in as parameters: the walk's entries,
    canonical paths, whether a README exists.
- The loop over projects (docsTasks.gradle.kts:30) and the union order of root and subprojects
  are not modelled. Each project's computation is modelled on its own.
- Gradle task registration and `extra` wiring (docsTasks.gradle.kts:22-27, 138-150) are
  build configuration, so they are not modelled.
- The two regular-expression link rewrites (docsTasks.gradle.kts:85, 90) are not modelled.
  Modelling them would need a regex engine with greedy `.*` and negative
  lookahead. Only the literal rewrite between them is modelled.
- `RewriteLocalDocsLinks` is stated of its own input only. The three-step
  rewrite of a README as a whole is not characterised: the greedy regex at
  line 85 can consume a `./docs/` before the literal step sees the text.
- Image discovery and copying (`discoverImagesInProject`, docsTasks.gradle.kts:12-20,
  121-133) are left out. They are a directory walk and file copies.
- `KotlinText` counts characters as Unicode scalar values, while Kotlin
  strings index UTF-16 code units. Lengths, `indexOf` and `slice` agree
  only on text inside the Basic Multilingual Plane; outside it, for example,
  `RelativePathWithoutMarker` counts what Kotlin would count as two units
  as one, and Kotlin's cut can split a surrogate pair.
- `KotlinText.EqualsIgnoreCase` folds ASCII letters only. Other Unicode
  case mappings are not modelled.
- `JavaIo` models Unix paths only. There are no drive letters and no
  backslash separators.
- The Facebook SDK is abstract:
  - `GraphRequest.executeAsync` is the `execute` parameter;
  - `LoginManager.logOut` clears the current token and profile
    (`SdkSession.LogOut`);
  - `newMeRequest` targets `me` with GET;
  - the response passed to the `/me` callback is never null.
- `FacebookAuthClient.scopes` is a value. Kotlin keeps the caller's mutable
  `ArrayList` by reference (FacebookAuthClient.kt:19) and
  `putStringArrayListExtra` (line 33) stores that same reference. The model
  does not capture that a later change to the caller's list changes what
  the client and an intent built earlier carry.
- `getCredentials` (FacebookAuthClient.kt:40-42) is not modelled, because
  `FacebookCredentials` is not part of this model.
- `getProviderSdk` (FacebookAuthClient.kt:55) is not modelled. It only returns the SDK
  singleton, so there is nothing to state about it.
- `getUser` (FacebookAuthClient.kt:36-38) is not modelled separately. `OmhTask` and coroutine
  suspension are not part of this model, so the methods return how the
  callback ends (`Resumption`) instead of a task. The model does not
  capture that after `ThrewInCallback` the task never completes.
- org.json is modelled only in part. The text it prints for an object,
  number, boolean, null or array is carried in the `Json` value, not
  computed.
- `PublicClientApplicationConfigurationLoader.kt` (reflection into the
  Microsoft library) and `SingletonModule.kt` (dependency-injection wiring)
  are not part of this model.
