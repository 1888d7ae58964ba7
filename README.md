# Single-directory component tooling, modelled in Dafny

This project models the logic at the centre of three Drupal modules. They work on
single-directory components (SDC): a folder holding a `<name>.component.yml` manifest,
a Twig template and optional JS/CSS.

- **dab** (Drupal Atomic Builder). Its parts:
  - the component file manager, which builds folder paths, writes stub files with
    exclusive create, and duplicates, moves and deletes components, and flattens
    asset libraries;
  - the component trait, which selects a component by provider and transposes
    prop examples into versions;
  - the component and list controllers, with their not-found guards, version
    choice, asset lists, grouping, filtering and sorting;
  - the menu link deriver;
  - the add/edit form, covering type options, machine-name validation, provider
    path, scaffolding and manifest merge;
  - the delete/duplicate confirmation form.
- **cl_server**. Its Storybook endpoint decodes the arguments, resolves the story
  file to a component, and splits the context into slots and props.
- **sdc_styleguide**. Its explorer form groups components and maps required props
  to form inputs.

Each PHP class whose methods update their own fields is a Dafny `class`:
`ComponentFileManager`, `DabComponentData` for the trait's three fields,
`DabComponentController`, `AddComponentForm` and `ConfirmationComponentForm`. Each
method of such a class is proved against a specification function. Loops of the
source are `while` loops with invariants, for example:
- the version transposition;
- the list controller's loop;
- the deriver's loop;
- the explorer's loops;
- the library flattening walk;
- the directory copy;
- the rename loop;
- the origin loop.

The rest is datatypes and functions, with lemmas for the properties the code promises.

The environment is explicit:
- The file system is a value `FileSystem(files, dirs)`. YAML files hold the value
  they encode.
- The plugin registry is a sequence of `Component` definitions.
- Module and theme paths are maps.
- The base64 and JSON decoders are function parameters.
- A directory listing, whose order the iterator does not fix, is a parameter.
- PHP arrays are ordered association lists with string keys (module `Assoc`).
  Menu links, whose order is not modelled, are a `map`.

PHP's own rules are written out where the code depends on them:
- `empty` treats `""` and `"0"` as empty;
- `??` reads a missing key as its default;
- a `null` passed to a `string` parameter is a TypeError;
- a `null` array key is `""`;
- `in_array` compares loosely, so `null == ""`;
- `+` on arrays keeps the left operand's keys.

A TypeError ends the request: the models give it as `None`, `Error` or `Fatal`.

## Model

| member | source | states |
|---|---|---|
| FileManager.ProviderBase | web/modules/contrib/dab/src/Service/ComponentFileManager.php:102-111 | The base of a provider is its module path if it is a module, else its theme path if it is a theme, else the provider string itself (the module check runs last and wins). |
| FileManager.FolderPath | web/modules/contrib/dab/src/Service/ComponentFileManager.php:97-115 | The folder is `<base>/components/<type>/<machine>` for a non-empty type and `<base>/components/<machine>` for an empty or null type. |
| FileManager.FolderPathSplits | web/modules/contrib/dab/src/Service/ComponentFileManager.php:456-458 | For a machine name without `/`, `dirname` of the folder is the group folder and `basename` is the machine name, so rebuilding the path from the two (the `realpath` fallback) gives the same folder. |
| FileManager.ComponentFileManager.constructor | web/modules/contrib/dab/src/Service/ComponentFileManager.php:62-72 | The manager holds the module and theme path lists and the file system it is given. |
| FileManager.ComponentFileManager.BuildComponentFolderPath | web/modules/contrib/dab/src/Service/ComponentFileManager.php:97-115 | The method returns the folder path over the manager's module and theme lists. |
| FileManager.ComponentFileManager.CreateComponentFolder | web/modules/contrib/dab/src/Service/ComponentFileManager.php:130-140 | Preparing the folder creates it with its missing ancestors. It returns true when the folder exists or could be created, and changes nothing when it fails. |
| FileManager.ComponentFileManager.Open | web/modules/contrib/dab/src/Service/ComponentFileManager.php:166-173 | `fopen(..., 'x')` succeeds exactly when the file can be created: it does not exist and its directory does. It then leaves an empty file; on failure nothing changes. |
| FileManager.ComponentFileManager.Write | web/modules/contrib/dab/src/Service/ComponentFileManager.php:202 | `fwrite` appends the text to the open file and changes nothing else. |
| FileManager.ComponentFileManager.CreateComponentFile | web/modules/contrib/dab/src/Service/ComponentFileManager.php:159-204 | The call succeeds exactly when `<folder>/<machine>.component.yml` can be created, and the file then holds the manifest. Otherwise it fails and nothing, including an existing file, is touched. |
| FileManager.ManifestUnique | web/modules/contrib/dab/src/Service/ComponentFileManager.php:175-199 | The manifest's keys are distinct. |
| FileManager.ManifestHeadFields | web/modules/contrib/dab/src/Service/ComponentFileManager.php:175-179 | The manifest always has `name` set to the given name and `status` set to `experimental`. |
| FileManager.ManifestOptionalFields | web/modules/contrib/dab/src/Service/ComponentFileManager.php:181-187 | The manifest has `group` exactly when the type is non-empty and `description` exactly when the description is non-empty, each with the given text. |
| FileManager.ManifestProps | web/modules/contrib/dab/src/Service/ComponentFileManager.php:189-199 | `props.properties` has the single key `name`, whose examples are `Example 1 => Hello world`. |
| FileManager.ComponentFileManager.WriteTwig | web/modules/contrib/dab/src/Service/ComponentFileManager.php:233-239 | The seven writes leave the Twig stub in the new file. |
| FileManager.ComponentFileManager.CreateTwigFile | web/modules/contrib/dab/src/Service/ComponentFileManager.php:219-241 | Exclusive create of `<folder>/<machine>.twig` holding the Twig stub; when the file cannot be created, it fails and nothing changes. |
| FileManager.TwigStubNamesComponent | web/modules/contrib/dab/src/Service/ComponentFileManager.php:233-239 | The Twig stub names the component on its second line and ends with `{{ name }}`. |
| FileManager.ComponentFileManager.WriteReadme | web/modules/contrib/dab/src/Service/ComponentFileManager.php:276-284 | The writes leave the README stub with the name and the description. |
| FileManager.ComponentFileManager.CreateReadmeFile | web/modules/contrib/dab/src/Service/ComponentFileManager.php:260-286 | Exclusive create of `<folder>/README.md` holding the README stub; when the file cannot be created, it fails and nothing changes. |
| FileManager.ComponentFileManager.WriteJs | web/modules/contrib/dab/src/Service/ComponentFileManager.php:315-321 | The writes leave the JS behaviour stub for the machine name. |
| FileManager.ComponentFileManager.CreateJsFile | web/modules/contrib/dab/src/Service/ComponentFileManager.php:301-323 | Exclusive create of `<folder>/<machine>.js` holding the JS stub; when the file cannot be created, it fails and nothing changes. |
| FileManager.ComponentFileManager.WriteCss | web/modules/contrib/dab/src/Service/ComponentFileManager.php:352-354 | The writes leave the CSS comment stub. |
| FileManager.ComponentFileManager.CreateCssFile | web/modules/contrib/dab/src/Service/ComponentFileManager.php:338-356 | Exclusive create of `<folder>/<machine>.css` holding the CSS stub; when the file cannot be created, it fails and nothing changes. |
| FileManager.ComponentFileManager.LoadComponentFile | web/modules/contrib/dab/src/Service/ComponentFileManager.php:367-380 | A missing manifest reads as `[]`. An existing one loads exactly when it decodes to an array; anything else (`null`, a scalar) is the `TypeError` of the declared `array` return type, and text that is not YAML never loads. |
| FileManager.ComponentFileManager.SaveComponentFile | web/modules/contrib/dab/src/Service/ComponentFileManager.php:393-401 | The manifest file is replaced by the encoded value when it can be written, and the call always returns true. |
| FileManager.ComponentFileManager.DeleteComponentFile | web/modules/contrib/dab/src/Service/ComponentFileManager.php:414-427 | The call returns true exactly when `<path>/<machine>.<type>` exists. When it is a file it is unlinked; otherwise nothing changes. |
| FileManager.ComponentFileManager.DuplicateComponent | web/modules/contrib/dab/src/Service/ComponentFileManager.php:440-487 | As written, the call fails and changes nothing when the new path equals the old one or exists. Otherwise it prepares the folder and copies only the entries at even positions of the listing, because of the extra `next()`. |
| FileManager.ComponentFileManager.DuplicateComponentAll | web/modules/contrib/dab/src/Service/ComponentFileManager.php:440-487 | The corrected duplicate: the same guards, and every entry of the listing is copied or prepared. |
| FileManager.Evens | web/modules/contrib/dab/src/Service/ComponentFileManager.php:465-476 | The entries a `foreach` that also calls `next()` visits are exactly those at positions 0, 2, 4, ... |
| FileManager.EntryTarget | web/modules/contrib/dab/src/Service/ComponentFileManager.php:466 | `str_replace` re-roots an entry of the old folder into the new folder when the old path occurs only as its prefix. |
| FileManager.CopyEntryCopies | web/modules/contrib/dab/src/Service/ComponentFileManager.php:466-473 | A file entry is copied to the same name in the new folder with its contents. |
| FileManager.CopyEntryPreserves | web/modules/contrib/dab/src/Service/ComponentFileManager.php:466-473 | Copying one entry keeps every file it does not write to, with its contents. |
| FileManager.CopyEntriesKeepsOutside | web/modules/contrib/dab/src/Service/ComponentFileManager.php:463-476 | The copy loop keeps every directory, and every file outside the new folder unchanged. |
| FileManager.CopyEntriesFoldersInside | web/modules/contrib/dab/src/Service/ComponentFileManager.php:463-476 | Every directory the loop creates under the new folder is `<new>/<entry>` for a listed entry (the iterator does not recurse). |
| FileManager.CopyEntriesCopiesFile | web/modules/contrib/dab/src/Service/ComponentFileManager.php:463-476 | Every listed file entry ends up in the new folder with the source's contents. |
| FileManager.DuplicateCopiesEveryFile | web/modules/contrib/dab/src/Service/ComponentFileManager.php:456-476 | Given the folder's complete listing and a prepared new folder, the corrected loop copies every file directly inside the old folder, with its contents. |
| FileManager.DuplicateSkipsOddEntries | web/modules/contrib/dab/src/Service/ComponentFileManager.php:465-476 | An entry at an odd position of the listing is never copied by the loop as written. |
| FileManager.DuplicateAsWrittenLosesFile | web/modules/contrib/dab/src/Service/ComponentFileManager.php:475 | Counterexample: in folder `x` listing `.`, `..`, `a.twig`, `b.css`, the loop as written does not copy `b.css`, and the corrected loop does. |
| FileManager.RenameFilesSameName | web/modules/contrib/dab/src/Service/ComponentFileManager.php:527-529 | When the machine name does not change, the rename loop renames nothing. |
| FileManager.RenameFilesKeepsOutside | web/modules/contrib/dab/src/Service/ComponentFileManager.php:524-531 | The rename loop changes no file outside the component folder. |
| FileManager.ComponentFileManager.MoveComponentFolder | web/modules/contrib/dab/src/Service/ComponentFileManager.php:504-546 | The call fails and changes nothing when the new path equals the old one or exists. Otherwise it renames the existing `<old>.<ext>` files to `<new>.<ext>`, prepares the parent of the new folder and moves the folder there. |
| FileManager.ComponentFileManager.GetLibrariesFilesFromExtension | web/modules/contrib/dab/src/Service/ComponentFileManager.php:557-596 | A missing `<base>/<provider>.libraries.yml` gives `[]`. Otherwise the result is the flattening of the decoded file into the `js`/`css` buckets. |
| Libraries.AppendTo | web/modules/contrib/dab/src/Service/ComponentFileManager.php:588-589 | `$buckets[$ext][] = $p` appends `p` to bucket `ext`, creating it at the end if needed. No other bucket changes. |
| Libraries.FlattenLibraryFiles | web/modules/contrib/dab/src/Service/ComponentFileManager.php:578-594 | The recursive closure, with its loop, computes the flattening function. |
| Libraries.FlattenFromFiles | web/modules/contrib/dab/src/Service/ComponentFileManager.php:579-591 | The walk appends to bucket `ext` exactly the files `<base>/<key>` of the empty-array leaves with that extension, in depth-first order. |
| Libraries.EntryFiles | web/modules/contrib/dab/src/Service/ComponentFileManager.php:580-590 | One entry is skipped when not an array, walked when non-empty, and appended when it is an empty array. |
| Libraries.FlattenFromKeepsKeys | web/modules/contrib/dab/src/Service/ComponentFileManager.php:576-591 | The walk keeps the existing bucket order (`js`, `css` first) and only adds buckets after them. |
| Libraries.FlattenFindsEveryFile | web/modules/contrib/dab/src/Service/ComponentFileManager.php:578-594 | Every leaf key `k` appears as `<base>/<k>` in the bucket of its extension. |
| Libraries.FlattenFilesOnlyLeaves | web/modules/contrib/dab/src/Service/ComponentFileManager.php:578-594 | Every file in a bucket is `<base>/<k>` for a leaf key `k` with that bucket's extension. |
| Fs.PrepareDirectory | web/modules/contrib/dab/src/Service/ComponentFileManager.php:136-139 | Creating a directory with its ancestors succeeds when no ancestor is a file. It keeps every file and adds only ancestors of the path; on failure nothing changes. |
| Fs.Copy | web/modules/contrib/dab/src/Service/ComponentFileManager.php:472 | The copy replaces the target with the source's contents when the source is a file, the target is not a directory and its directory exists. Otherwise nothing changes. |
| Fs.Unlink | web/modules/contrib/dab/src/Service/ComponentFileManager.php:421 | Only the given file is removed; every other file and every directory are unchanged. |
| Fs.DeleteRecursive | web/modules/contrib/dab/src/Form/ConfirmationComponentForm.php:172 | Recursive delete removes exactly what lies under the path and keeps every other file unchanged. |
| Fs.Move | web/modules/contrib/dab/src/Service/ComponentFileManager.php:530 | A move that cannot take place changes nothing, and a move keeps every file outside both folders. |
| Fs.Rebase | web/modules/contrib/dab/src/Service/ComponentFileManager.php:535 | A path under the source folder, re-rooted, lies under the target folder. |
| Fs.MoveRelocates | web/modules/contrib/dab/src/Service/ComponentFileManager.php:535 | Every file under the source is found at its re-rooted path under the target with its contents, and the source no longer exists. |
| Fs.RebaseOrigin | web/modules/contrib/dab/src/Service/ComponentFileManager.php:535 | Re-rooting is undone by taking the origin, so the move loses no file. |
| Endpoint.ArgumentsJson | web/modules/contrib/cl_server/src/Controller/ServerEndpointController.php:145-153 | The JSON is: for GET the strictly base64-decoded `_params`, for POST the body, otherwise `[]`. A falsy or failed decode is `[]`, so the text is never empty. |
| Endpoint.GetArguments | web/modules/contrib/cl_server/src/Controller/ServerEndpointController.php:153-154 | The arguments are the decoded array, or `[]` when the JSON is not an array. |
| Endpoint.Shift | web/modules/contrib/cl_server/src/Controller/ServerEndpointController.php:251-253 | Dropping the first `/`-segment leaves what follows the first `/`, or nothing; the name gets strictly shorter. |
| Endpoint.FindStoryFile | web/modules/contrib/cl_server/src/Controller/ServerEndpointController.php:244-255 | A found story file exists, is non-empty and is a segment suffix of the name; an existing non-empty name is itself the result. |
| Endpoint.FindStoryFileLongest | web/modules/contrib/cl_server/src/Controller/ServerEndpointController.php:244-255 | No longer segment suffix of the name exists: the result is the first existing one. |
| Endpoint.FindExtensionName | web/modules/contrib/cl_server/src/Controller/ServerEndpointController.php:260-271 | The corrected walk up the directories: a found name is the basename of a directory `p` whose `p/<basename p>.info.yml` exists. |
| Endpoint.FindExtensionNameAgrees | web/modules/contrib/cl_server/src/Controller/ServerEndpointController.php:260-271 | With enough fuel, the walk as written either never ends or gives the corrected walk's answer. When a marker is found, it always agrees. |
| Endpoint.FindExtensionNameAsWrittenDiverges | web/modules/contrib/cl_server/src/Controller/ServerEndpointController.php:260-271 | From `.` with no `./..info.yml`, the walk as written runs out of any fuel: `dirname('.')` is `.`. |
| Endpoint.StoryMachineName | web/modules/contrib/cl_server/src/Controller/ServerEndpointController.php:168-169 | The machine name holds no `.` and no `/`: it is the basename up to its first dot. |
| Endpoint.GetComponentAsWritten | web/modules/contrib/cl_server/src/Controller/ServerEndpointController.php:163-172 | An empty or missing story name is "component not found". A story no file matches passes `null` to `findExtensionName` and ends in a TypeError. |
| Endpoint.Lookup | web/modules/contrib/cl_server/src/Controller/ServerEndpointController.php:171 | `createInstance` resolves exactly the ids the registry has, and otherwise reports the unknown plugin. |
| Endpoint.GetComponent | web/modules/contrib/cl_server/src/Controller/ServerEndpointController.php:163-172 | The corrected resolution never fails fatally. A resolved component is the registry's plugin `<extension>:<machine>` for the found story file. |
| Endpoint.GetComponentAgrees | web/modules/contrib/cl_server/src/Controller/ServerEndpointController.php:163-172 | Whenever the code as written resolves or reports not-found, the corrected resolution gives the same answer. |
| Endpoint.GetComponentAsWrittenFatal | web/modules/contrib/cl_server/src/Controller/ServerEndpointController.php:170 | Concrete input: for an empty file system and story `button.stories.yml`, the code as written fails fatally, while the corrected one reports not-found. |
| Endpoint.SlotString | web/modules/contrib/cl_server/src/Controller/ServerEndpointController.php:193-198 | The closure's `string` parameter accepts strings and rejects null, arrays and objects. |
| Endpoint.Slots | web/modules/contrib/cl_server/src/Controller/ServerEndpointController.php:193-200 | Each slot entry becomes an inline template of its string over the whole context, with the same keys. The mapping fails exactly when some slot value is not a string. |
| Endpoint.Upcast | web/modules/contrib/cl_server/src/Controller/ServerEndpointController.php:189-191 | `attributes` is replaced by an `Attribute` built from it exactly when the upcast test holds. Every other entry, and the key order, is unchanged. |
| Endpoint.GenerateRenderArray | web/modules/contrib/cl_server/src/Controller/ServerEndpointController.php:186-207 | The build names the plugin. The slots are the context entries whose keys are declared slots, and the props are exactly the others. |
| Endpoint.RenderArrayPartitions | web/modules/contrib/cl_server/src/Controller/ServerEndpointController.php:192-205 | Every context key is a slot or a prop, never both; it is a slot exactly when it is a declared slot name. |
| Endpoint.Render | web/modules/contrib/cl_server/src/Controller/ServerEndpointController.php:101-131 | The wrapper always has id `___cl-wrapper`, max-age 0, type container and the behaviours library. With the corrected resolution (Endpoint.GetComponent), a not-found component becomes the error markup. A resolved one renders exactly when its render array can be built, and the wrapper then holds that render array. |
| Strings.Explode | web/modules/contrib/cl_server/src/Controller/ServerEndpointController.php:251 | `explode` always yields at least one piece. |
| Strings.Implode | web/modules/contrib/cl_server/src/Controller/ServerEndpointController.php:253 | `implode` begins with its first piece. |
| Strings.ImplodeExplode | web/modules/contrib/cl_server/src/Controller/ServerEndpointController.php:251-253 | `implode` undoes `explode`. |
| Strings.ExplodeImplode | web/modules/contrib/cl_server/src/Controller/ServerEndpointController.php:251-253 | `explode` undoes `implode` when no piece holds the separator's first character. |
| Strings.Dirname | web/modules/contrib/cl_server/src/Controller/ServerEndpointController.php:264 | `dirname` of a non-empty path is non-empty. |
| Strings.Basename | web/modules/contrib/cl_server/src/Controller/ServerEndpointController.php:265 | A basename holds no `/`. |
| Strings.DirnameBasenameJoin | web/modules/contrib/cl_server/src/Controller/ServerEndpointController.php:264-265 | `dirname` and `basename` of `dir/name` are `dir` and `name`. |
| Strings.DirnameShrinks | web/modules/contrib/cl_server/src/Controller/ServerEndpointController.php:264 | `dirname` never lengthens a path, and a path it keeps is a fixpoint. |
| Strings.Ucfirst | web/modules/contrib/dab/src/Controller/DabComponentController.php:106 | `ucfirst` upper-cases the first character only. |
| Strings.RtrimChar | web/modules/contrib/dab/src/Plugin/Derivative/AtomicComponentMenuLinkDeriver.php:70 | `rtrim(s, c)` removes exactly the trailing run of `c`. |
| Strings.Contains | web/modules/contrib/dab/src/Controller/DabComponentListController.php:118 | Substring search holds exactly when the needle occurs at some position. |
| Strings.ContainsChar | web/modules/contrib/dab/src/Controller/DabComponentListController.php:118 | A one-character needle occurs exactly when the character is in the text. |
| Strings.LastIndexOf | web/modules/contrib/cl_server/src/Controller/ServerEndpointController.php:265 | The result is the last position of the character, or none when it is absent. |
| Strings.LastIndexOfJoin | web/modules/contrib/cl_server/src/Controller/ServerEndpointController.php:265 | In `a/b` with no `/` in `b`, the last `/` is the one after `a`. |
| Strings.PathExtension | web/modules/contrib/dab/src/Service/ComponentFileManager.php:588 | The extension `pathinfo` gives holds no `.` or `/`. |
| Strings.Trim | web/modules/contrib/dab/src/Form/AddComponentForm.php:264 | The result of `trim` starts and ends with a character `trim` does not remove, or is empty. |
| Strings.TrimLeft | web/modules/contrib/dab/src/Form/AddComponentForm.php:264 | The left trim leaves a text that does not start with a removable character. |
| Strings.TrimRight | web/modules/contrib/dab/src/Form/AddComponentForm.php:264 | The right trim leaves a text that does not end with a removable character. |
| Strings.TrimSlice | web/modules/contrib/dab/src/Form/AddComponentForm.php:264 | `trim` returns one contiguous slice of its input. |
| Strings.TrimRemovesOnlyTrimmed | web/modules/contrib/dab/src/Form/AddComponentForm.php:264 | Outside that slice, only whitespace and NUL characters are removed. |
| Strings.TrimLeftSuffix | web/modules/contrib/dab/src/Form/AddComponentForm.php:264 | The left trim removes a prefix of removable characters. |
| Strings.TrimRightPrefix | web/modules/contrib/dab/src/Form/AddComponentForm.php:264 | The right trim removes a suffix of removable characters. |
| Strings.ReplaceAllAbsent | web/modules/contrib/dab/src/Service/ComponentFileManager.php:466 | `str_replace` of an absent text changes nothing. |
| Strings.ReplacePrefix | web/modules/contrib/dab/src/Service/ComponentFileManager.php:466 | `str_replace` of a text found only as the prefix replaces just that prefix. |
| Strings.StrReplace | web/modules/contrib/dab/src/Service/ComponentFileManager.php:466 | `str_replace` with an empty search text returns the subject. |
| Sdc.PluginId | web/modules/contrib/cl_server/src/Controller/ServerEndpointController.php:171 | The plugin id is `<provider>:<machine>`. |
| Sdc.Find | web/modules/contrib/cl_server/src/Controller/ServerEndpointController.php:171 | Lookup finds a registered component with that id, or reports that none has it. |
| Assoc.Put | web/modules/contrib/dab/src/Traits/DabComponentTrait.php:65 | `$a[$k] = $v` sets `k` in place, or appends it at the end; other keys are unchanged. |
| Assoc.First | web/modules/contrib/dab/src/Traits/DabComponentTrait.php:71 | `reset` gives the first value, or nothing for an empty array. |
| Assoc.Only | web/modules/contrib/cl_server/src/Controller/ServerEndpointController.php:199 | `array_intersect_key` keeps exactly the given keys. |
| Assoc.Without | web/modules/contrib/cl_server/src/Controller/ServerEndpointController.php:205 | `array_diff_key` drops exactly the given keys. |
| Assoc.Remove | web/modules/contrib/sdc_styleguide/src/Form/SDCExplorerForm.php:131 | `unset` drops the key and keeps everything else. |
| Assoc.Union | web/modules/contrib/dab/src/Plugin/Derivative/AtomicComponentMenuLinkDeriver.php:64 | `+` takes each key from the left array when present, else from the right. |
| Assoc.GetConcat | web/modules/contrib/dab/src/Plugin/Derivative/AtomicComponentMenuLinkDeriver.php:64 | Lookup in a concatenation reads the left part first. |
| ComponentData.ByProvider | web/modules/contrib/dab/src/Traits/DabComponentTrait.php:61-69 | The map holds, for every provider with a component of that machine name, one such component. |
| ComponentData.ByProviderLastWins | web/modules/contrib/dab/src/Traits/DabComponentTrait.php:61-69 | The last component of each provider overwrites the earlier ones. |
| ComponentData.Select | web/modules/contrib/dab/src/Traits/DabComponentTrait.php:71 | The requested provider's component when present, else the first. |
| ComponentData.TransposeSets | web/modules/contrib/dab/src/Traits/DabComponentTrait.php:87-95 | After transposition, `versions[k][p]` is exactly prop `p`'s example `k`. |
| ComponentData.TransposeVersions | web/modules/contrib/dab/src/Traits/DabComponentTrait.php:87-95 | Version `k` exists exactly when some prop has an example `k`. |
| ComponentData.TransposeFailureStays | web/modules/contrib/dab/src/Traits/DabComponentTrait.php:87-95 | Once a prop declaration is not an array (a TypeError), the whole transposition fails. |
| ComponentData.AddExamplesSets | web/modules/contrib/dab/src/Traits/DabComponentTrait.php:92-94 | The inner loop sets `versions[k][p]` for each example key of prop `p` and nothing else. |
| ComponentData.AddExamplesVersions | web/modules/contrib/dab/src/Traits/DabComponentTrait.php:92-94 | The inner loop adds exactly the prop's example keys as versions. |
| ComponentData.ComponentVersions | web/modules/contrib/dab/src/Traits/DabComponentTrait.php:78-98 | The corrected guard: a component without props has no versions; otherwise the versions are computed as written. |
| ComponentData.VersionsAsWrittenFailsWithoutProps | web/modules/contrib/dab/src/Traits/DabComponentTrait.php:82 | With `&&`, a component without props reaches `array_key_exists` on `null` and fails, while the corrected guard gives no versions. |
| ComponentData.CollectVersions | web/modules/contrib/dab/src/Traits/DabComponentTrait.php:78-98 | The nested loops compute the component's versions. |
| ComponentData.ProviderOptions | web/modules/contrib/dab/src/Traits/DabComponentTrait.php:127-134 | The options map each provider to itself, for exactly the providers present. |
| ComponentData.ProviderOptionsOfByProvider | web/modules/contrib/dab/src/Traits/DabComponentTrait.php:127-134 | The provider options of a selection are its providers. |
| ComponentData.TemplateSelect | web/modules/contrib/dab/src/Traits/DabComponentTrait.php:109-119 | The select exists exactly when more than one provider has the component; its options are the provider options and its value the given provider. |
| ComponentData.KeyOptions | web/modules/contrib/dab/src/Traits/DabComponentTrait.php:147-150 | The version options map each version name to itself, in version order. |
| ComponentData.VersionSelect | web/modules/contrib/dab/src/Traits/DabComponentTrait.php:145-159 | The select exists exactly when there are two or more versions. Its value is the given version, else the first name. |
| ComponentData.CustomOptions | web/modules/contrib/dab/src/Traits/DabComponentTrait.php:177-188 | Exactly the extensions under the custom prefix are offered, by name. |
| ComponentData.ExtensionsOptions | web/modules/contrib/dab/src/Traits/DabComponentTrait.php:167-191 | Without both list services the options are empty. Otherwise `Modules` and `Themes` hold the custom modules and themes, and each is present only when non-empty. |
| ComponentData.DabComponentData.constructor | web/modules/contrib/dab/src/Traits/DabComponentTrait.php:20-34 | `components` and `component` start unset (PHP's `null`), and `versions` starts empty. |
| ComponentData.DabComponentData.GetComponentData | web/modules/contrib/dab/src/Traits/DabComponentTrait.php:44-73 | Without the service nothing changes. Otherwise `components` is set to the provider map and `component` the selection, and `versions` is recomputed when that succeeds. |
| ComponentData.DabComponentData.GetComponentVersions | web/modules/contrib/dab/src/Traits/DabComponentTrait.php:78-98 | The method sets `versions` to the selected component's versions and keeps the other fields. |
| ComponentData.DabComponentData.GetTemplateSelect | web/modules/contrib/dab/src/Traits/DabComponentTrait.php:109-134 | The template select over the object's components. While they are unset it is the `TypeError` of `array_reduce` on `null`. |
| ComponentData.DabComponentData.GetVersionSelect | web/modules/contrib/dab/src/Traits/DabComponentTrait.php:145-159 | The version select over the object's versions. |
| ComponentData.DabComponentData.GetExtensionsOptions | web/modules/contrib/dab/src/Traits/DabComponentTrait.php:167-191 | The loops compute the extension options. |
| ComponentController.Title | web/modules/contrib/dab/src/Controller/DabComponentController.php:105-107 | `ucfirst` of the machine name, or `Component` when there is none. |
| ComponentController.Candidates | web/modules/contrib/dab/src/Controller/DabComponentController.php:133 | The list `in_array` searches is `null` followed by the providers. |
| ComponentController.ProviderAccepted | web/modules/contrib/dab/src/Controller/DabComponentController.php:133 | A provider passes the guard exactly when it is null, `""` (loosely equal to null) or a provider of the component. |
| ComponentController.ResolveAsWrittenNullMachineName | web/modules/contrib/dab/src/Controller/DabComponentController.php:128-136 | As written, a null machine name always ends in a TypeError from `getComponentData`, never in a 404. |
| ComponentController.ResolveNotFound | web/modules/contrib/dab/src/Controller/DabComponentController.php:128-136 | The corrected start gives 404 exactly in three cases. The machine name is null. The type is null and the data loads or the service is missing. Or the data loads but the provider is not one of the component's. |
| ComponentController.ResolvePage | web/modules/contrib/dab/src/Controller/DabComponentController.php:128-138 | A page is produced exactly when both names are given, the data loads and the provider is accepted. Its component then has that machine name and, when a provider is named, that provider; its versions are the component's. |
| ComponentController.EmbedData | web/modules/contrib/dab/src/Controller/DabComponentController.php:150 | The data is the requested version when present, else the first version, and nothing when there are no versions. |
| ComponentController.OwnCss | web/modules/contrib/dab/src/Controller/DabComponentController.php:140 | The component's own stylesheets are the keys of `library.css.component`, or `[]` without `css`. There are none (a TypeError) when the library or that entry is not an array. |
| ComponentController.OwnJs | web/modules/contrib/dab/src/Controller/DabComponentController.php:141 | The component's own scripts are the keys of `library.js`, or `[]` without `js`. There are none (a TypeError) when the library or that entry is not an array. |
| ComponentController.EmbedContents | web/modules/contrib/dab/src/Controller/DabComponentController.php:138-152 | The embed page has title `<type> / <Title>`, the chosen version's data and the plugin id. Its stylesheets and scripts are the component's own followed by the provider's flattened ones. |
| ComponentController.EmbedProviderStylesheets | web/modules/contrib/dab/src/Controller/DabComponentController.php:142-143 | A provider stylesheet is exactly a CSS leaf of the provider's library file, under the provider's base. |
| ComponentController.EmbedNoLibrariesFile | web/modules/contrib/dab/src/Controller/DabComponentController.php:142-144 | Without a libraries file the provider adds no stylesheets and no scripts. |
| ComponentController.EmbedAsWrittenWithoutProvider | web/modules/contrib/dab/src/Controller/DabComponentController.php:142 | As written, an embed without a provider passes the guard and then fails on `getLibrariesFilesFromExtension(null)`. |
| ComponentController.EmbedWithoutProvider | web/modules/contrib/dab/src/Controller/DabComponentController.php:138-152 | The corrected embed without a provider renders whenever the component's own asset lists can be read, using the shown component's provider. |
| ComponentController.ResponsiveSelect | web/modules/contrib/dab/src/Controller/DabComponentController.php:283-296 | The select has id `iframe-resize-select` and the fixed size options. Its value is the requested size, or `reset` by default. |
| ComponentController.BuildSelects | web/modules/contrib/dab/src/Controller/DabComponentController.php:179-249 | `build` is not found exactly when the start is. The template select appears with more than one provider and its value is forced to the provider. The version select appears with two or more versions. |
| ComponentController.DabComponentController.constructor | web/modules/contrib/dab/src/Controller/DabComponentController.php:67-79 | The controller holds the file manager and fresh trait data. |
| ComponentController.DabComponentController.Start | web/modules/contrib/dab/src/Controller/DabComponentController.php:125-136 | The shared start: it loads the trait data and applies the guard, and a page carries the loaded components and versions. |
| ComponentController.DabComponentController.Embed | web/modules/contrib/dab/src/Controller/DabComponentController.php:125-161 | The embed route returns the embed response and leaves the trait data as loaded. |
| ComponentController.DabComponentController.Build | web/modules/contrib/dab/src/Controller/DabComponentController.php:179-249 | The build route returns the build response and leaves the trait data as loaded. |
| ComponentList.GroupOf | web/modules/contrib/dab/src/Controller/DabComponentListController.php:106 | A component without a group is in `other`. |
| ComponentList.FilterOf | web/modules/contrib/dab/src/Controller/DabComponentListController.php:91 | A null or falsy filter is `""`. |
| ComponentList.CollectGroups | web/modules/contrib/dab/src/Controller/DabComponentListController.php:108-116 | A group has a header exactly when some discovered component is in it, even when the filter lists none of them. The header is titled `ucfirst(group)` and is active exactly for the requested type. |
| ComponentList.CollectListsOnlyListed | web/modules/contrib/dab/src/Controller/DabComponentListController.php:118-133 | Only components whose machine name contains the filter are listed, under their group and in the full list. |
| ComponentList.CollectListsEveryListed | web/modules/contrib/dab/src/Controller/DabComponentListController.php:122-133 | Every listed component is in the full list under its plugin id, with its entry, unless a later component has the same id. |
| ComponentList.CollectListsLast | web/modules/contrib/dab/src/Controller/DabComponentListController.php:122-133 | The last component, when listed, is in the full list under its id with its entry. |
| ComponentList.CollectListsKeeps | web/modules/contrib/dab/src/Controller/DabComponentListController.php:122-133 | A component does not change the full list's entry for another id. |
| ComponentList.CollectGroupsListEveryListed | web/modules/contrib/dab/src/Controller/DabComponentListController.php:122-131 | Every listed component is under its group, by plugin id, with its entry. |
| ComponentList.CollectGroupsListLast | web/modules/contrib/dab/src/Controller/DabComponentListController.php:122-131 | The last component, when listed, is in its group under its id with its entry. |
| ComponentList.CollectGroupsKeeps | web/modules/contrib/dab/src/Controller/DabComponentListController.php:122-131 | A component does not change any group's entry for another id. |
| ComponentList.AllIsUnionOfGroups | web/modules/contrib/dab/src/Controller/DabComponentListController.php:133 | With distinct ids, the full list holds exactly the entries of all the groups. |
| ComponentList.KeyLeqTotal | web/modules/contrib/dab/src/Controller/DabComponentListController.php:136 | The key order `ksort` uses is total. |
| ComponentList.Insert | web/modules/contrib/dab/src/Controller/DabComponentListController.php:136 | Insertion adds the entry and keeps the others. |
| ComponentList.InsertSorted | web/modules/contrib/dab/src/Controller/DabComponentListController.php:136 | Insertion keeps a sorted list sorted. |
| ComponentList.SortByKey | web/modules/contrib/dab/src/Controller/DabComponentListController.php:136 | The sort is a permutation. |
| ComponentList.SortByKeySorted | web/modules/contrib/dab/src/Controller/DabComponentListController.php:136 | The sort orders by key and is a permutation. |
| ComponentList.PageComponents | web/modules/contrib/dab/src/Controller/DabComponentListController.php:136-141 | The page lists the groups sorted by key. Its components are the full list without a type, else the type's group. |
| ComponentList.Build | web/modules/contrib/dab/src/Controller/DabComponentListController.php:87-149 | A discovery failure gives the empty page. Otherwise the loop and the sort give the page of the collected listing. |
| ComponentList.Title | web/modules/contrib/dab/src/Controller/DabComponentListController.php:72-79 | `Drupal Atomic Builder` without a type, else `ucfirst(type)`. |
| MenuLinks.KeyStringInjective | web/modules/contrib/dab/src/Plugin/Derivative/AtomicComponentMenuLinkDeriver.php:57-67 | The rendered link keys of two different links differ (prefix and name are recoverable). |
| MenuLinks.PrefixesDiffer | web/modules/contrib/dab/src/Plugin/Derivative/AtomicComponentMenuLinkDeriver.php:57-67 | Two different key prefixes differ at some position within both. |
| MenuLinks.KeyStringInjectiveAll | web/modules/contrib/dab/src/Plugin/Derivative/AtomicComponentMenuLinkDeriver.php:117-159 | No two keys render to the same array key. |
| MenuLinks.OwnKeys | web/modules/contrib/dab/src/Plugin/Derivative/AtomicComponentMenuLinkDeriver.php:58-75 | The fields a link sets are distinct and exactly its named fields. |
| MenuLinks.DefinitionGet | web/modules/contrib/dab/src/Plugin/Derivative/AtomicComponentMenuLinkDeriver.php:64 | A definition field is the link's own when it sets it, else the base definition's. |
| MenuLinks.OwnFieldsGet | web/modules/contrib/dab/src/Plugin/Derivative/AtomicComponentMenuLinkDeriver.php:58-75 | Each field a link sets is found under its name. |
| MenuLinks.RenderedAt | web/modules/contrib/dab/src/Plugin/Derivative/AtomicComponentMenuLinkDeriver.php:86 | The returned array has exactly the rendered keys of the links, each holding that link's definition. |
| MenuLinks.PassValue | web/modules/contrib/dab/src/Plugin/Derivative/AtomicComponentMenuLinkDeriver.php:52-84 | A component's pass defines a link exactly for the keys it assigns. |
| MenuLinks.PassAt | web/modules/contrib/dab/src/Plugin/Derivative/AtomicComponentMenuLinkDeriver.php:52-84 | One pass changes only the keys it assigns. |
| MenuLinks.PassLeaves | web/modules/contrib/dab/src/Plugin/Derivative/AtomicComponentMenuLinkDeriver.php:54-171 | The pass leaves the component link and the three action links under their keys. The group and "Add" links stay exactly when the component's key does not clash with them. |
| MenuLinks.PassParents | web/modules/contrib/dab/src/Plugin/Derivative/AtomicComponentMenuLinkDeriver.php:61-162 | Every link's parent is `dab.menu` or `dab.components:` prefixed to the rendered key of a link of the same pass. |
| MenuLinks.DeriveAtCorrect | web/modules/contrib/dab/src/Plugin/Derivative/AtomicComponentMenuLinkDeriver.php:48-87 | The links built pass by pass agree, key by key, with the reference definition that reads each key from the passes directly. |
| MenuLinks.DeriveKeys | web/modules/contrib/dab/src/Plugin/Derivative/AtomicComponentMenuLinkDeriver.php:48-87 | A key is derived exactly when some component's pass assigns it. |
| MenuLinks.DeriveAtKeys | web/modules/contrib/dab/src/Plugin/Derivative/AtomicComponentMenuLinkDeriver.php:48-87 | The reference definition has a link under a key exactly when some component's pass assigns it. |
| MenuLinks.DeriveWriter | web/modules/contrib/dab/src/Plugin/Derivative/AtomicComponentMenuLinkDeriver.php:48-87 | Every derived link was written by some component's pass. |
| MenuLinks.DeriveAtWriter | web/modules/contrib/dab/src/Plugin/Derivative/AtomicComponentMenuLinkDeriver.php:48-87 | The reference definition's link under a key was written by some component's pass. |
| MenuLinks.DeriveLastWriter | web/modules/contrib/dab/src/Plugin/Derivative/AtomicComponentMenuLinkDeriver.php:48-87 | The link under a key is the one written by the last component whose pass assigns it. |
| MenuLinks.DeriveAtLastWriter | web/modules/contrib/dab/src/Plugin/Derivative/AtomicComponentMenuLinkDeriver.php:48-87 | The reference definition's link under a key is the one written by the last component whose pass assigns it. |
| MenuLinks.DeriveParents | web/modules/contrib/dab/src/Plugin/Derivative/AtomicComponentMenuLinkDeriver.php:48-87 | Every derived link's parent is `dab.menu` or `dab.components:` prefixed to the key of a derived link. |
| MenuLinks.DeriveToolLink | web/modules/contrib/dab/src/Plugin/Derivative/AtomicComponentMenuLinkDeriver.php:130-171 | Each component's delete, edit and duplicate links are derived with their titles, routes, weights and route parameters, unless a later component overwrites them. |
| MenuLinks.DeriveComponentLink | web/modules/contrib/dab/src/Plugin/Derivative/AtomicComponentMenuLinkDeriver.php:116-128 | Each component's link is derived under its group link, unless a later component overwrites it. |
| MenuLinks.BuildComponentMenuItem | web/modules/contrib/dab/src/Plugin/Derivative/AtomicComponentMenuLinkDeriver.php:103-172 | The method sets the component link and the three action links and no other key. |
| MenuLinks.GetDerivativeDefinitions | web/modules/contrib/dab/src/Plugin/Derivative/AtomicComponentMenuLinkDeriver.php:48-87 | The loop computes the derived links. |
| AddForm.TypeLineRoundTrip | web/modules/contrib/dab/src/Form/AddComponentForm.php:266-268 | A `key\|label` line parses to that key and label. |
| AddForm.TypeLineWithoutLabel | web/modules/contrib/dab/src/Form/AddComponentForm.php:267-268 | A line without `\|` gives its text as the key and a null label. |
| AddForm.LineKeys | web/modules/contrib/dab/src/Form/AddComponentForm.php:266-270 | The keys of the lines, in order. |
| AddForm.TypeOptionsFrom | web/modules/contrib/dab/src/Form/AddComponentForm.php:266-270 | The options have distinct keys, exactly the keys of the lines. |
| AddForm.TypeOptionsLastWins | web/modules/contrib/dab/src/Form/AddComponentForm.php:266-270 | For a key, the last line with that key gives its label. |
| AddForm.ComponentTypesOptions | web/modules/contrib/dab/src/Form/AddComponentForm.php:249-274 | Empty config gives the six default types; otherwise exactly the keys of the trimmed `\r\n`-separated lines (the defaults are replaced). |
| AddForm.TypeOptionsFromLines | web/modules/contrib/dab/src/Form/AddComponentForm.php:266-270 | Parsing the lines written from distinct key/label pairs gives back those pairs. |
| AddForm.TypeTextKept | web/modules/contrib/dab/src/Form/AddComponentForm.php:264 | Text whose ends are not whitespace is non-empty and survives `trim`. |
| AddForm.ComponentTypesOptionsRoundTrip | web/modules/contrib/dab/src/Form/AddComponentForm.php:263-271 | A configuration written as `key\|label` lines joined by `\r\n` reads back as exactly those options. |
| AddForm.ScanStart | web/modules/contrib/dab/src/Form/AddComponentForm.php:284 | The matcher for `^[a-z]+_?[a-z]*$` accepts exactly lower-case letters with at most one underscore, which is not the first character. |
| AddForm.MachineNameMatches | web/modules/contrib/dab/src/Form/AddComponentForm.php:284 | `preg_match` also accepts one trailing newline, as PCRE's `$` does. |
| AddForm.MachineNameAccepts | web/modules/contrib/dab/src/Form/AddComponentForm.php:284 | `machine_name` and `card` pass. |
| AddForm.MachineNameRejects | web/modules/contrib/dab/src/Form/AddComponentForm.php:284 | `_card`, `card2` and `my_big_card` fail. |
| AddForm.ProviderPath | web/modules/contrib/dab/src/Form/AddComponentForm.php:288-291 | The provider path is missing exactly when the provider is neither module nor theme. Otherwise it is the provider base: the module path, else the theme path. |
| AddForm.Validation | web/modules/contrib/dab/src/Form/AddComponentForm.php:279-305 | The corrected validation. It reports a bad machine name exactly when the pattern fails, an unknown provider exactly when it is neither module nor theme, and a taken name exactly when a folder of that name exists and the form is not editing. |
| AddForm.ValidationAsWrittenUnknownProvider | web/modules/contrib/dab/src/Form/AddComponentForm.php:289-295 | As written, an unknown provider ends in a TypeError when `null` is stored in the `string` property. Otherwise the result is the validation's. |
| AddForm.AssetFields | web/modules/contrib/dab/src/Form/AddComponentForm.php:193-208 | Asset field `i` is `delete_<ext>` exactly when editing a component that has that asset, else `add_<ext>`. |
| AddForm.AssetFieldsWhenAdding | web/modules/contrib/dab/src/Form/AddComponentForm.php:193-208 | A new component offers `add_js` and `add_css`. |
| AddForm.Created | web/modules/contrib/dab/src/Service/ComponentFileManager.php:166-173 | Exclusive create keeps every existing file and adds at most the one path. |
| AddForm.ScaffoldKeepsFiles | web/modules/contrib/dab/src/Form/AddComponentForm.php:356-405 | Creating a component overwrites no existing file. |
| AddForm.StubPathsDiffer | web/modules/contrib/dab/src/Form/AddComponentForm.php:356-405 | The five stub paths are pairwise different. |
| AddForm.ScaffoldAssetsOnlyWhenFlagged | web/modules/contrib/dab/src/Form/AddComponentForm.php:386-402 | A JS or CSS stub is created only when its box was ticked. |
| AddForm.ScaffoldWritesStubs | web/modules/contrib/dab/src/Form/AddComponentForm.php:356-385 | When the folder can be prepared and none of its stubs exist, the folder afterwards holds the manifest, the README and the Twig stub with their contents. |
| AddForm.Assign | web/modules/contrib/dab/src/Form/AddComponentForm.php:425 | `$componentFile[$property] = $value` sets that key on an array manifest. |
| AddForm.MergeValues | web/modules/contrib/dab/src/Form/AddComponentForm.php:420-426 | Merging into an array manifest gives an array. |
| AddForm.MergeGet | web/modules/contrib/dab/src/Form/AddComponentForm.php:420-426 | After the merge, each key holds the last non-empty value submitted for it, except `machine_name`; every other key is unchanged. |
| AddForm.LastSetMachineName | web/modules/contrib/dab/src/Form/AddComponentForm.php:421 | No submitted value is ever taken for `machine_name`. |
| AddForm.MergeKeepsMachineName | web/modules/contrib/dab/src/Form/AddComponentForm.php:421 | The merge never changes `machine_name`. |
| AddForm.MergeIntoNothing | web/modules/contrib/dab/src/Form/AddComponentForm.php:418-426 | A manifest that failed to load yields no merged manifest, whatever is submitted. |
| AddForm.UpdatedIffLoaded | web/modules/contrib/dab/src/Form/AddComponentForm.php:416-458 | The update goes through exactly when the manifest loaded (as an array). |
| AddForm.UpdateAddAssetNeedsFolder | web/modules/contrib/dab/src/Form/AddComponentForm.php:437-443 | An asset created during an update lands only in an existing folder. When the new folder is missing, nothing is created there. |
| AddForm.AddComponentForm.constructor | web/modules/contrib/dab/src/Form/AddComponentForm.php:87-99 | The form starts with `isEdit` false and no provider path. |
| AddForm.AddComponentForm.BuildForm | web/modules/contrib/dab/src/Form/AddComponentForm.php:124-217 | `isEdit` holds exactly when type and machine name are given. New components get empty defaults and the add boxes. Edited components get their definition's defaults and the delete/add boxes. |
| AddForm.AddComponentForm.ValidateForm | web/modules/contrib/dab/src/Form/AddComponentForm.php:279-305 | The method stores the provider path and returns the validation errors. |
| AddForm.AddComponentForm.CreateComponent | web/modules/contrib/dab/src/Form/AddComponentForm.php:356-405 | The scaffold: folder, manifest, README, Twig and the flagged assets; the result is always true. |
| AddForm.AddComponentForm.CreateFolderAndFiles | web/modules/contrib/dab/src/Form/AddComponentForm.php:358-384 | The folder, manifest, README and Twig steps. |
| AddForm.AddComponentForm.CreateAssets | web/modules/contrib/dab/src/Form/AddComponentForm.php:386-402 | The flagged JS and CSS steps. |
| AddForm.AddComponentForm.UpdateComponent | web/modules/contrib/dab/src/Form/AddComponentForm.php:416-458 | The update completes exactly when the manifest loads as an array. It then saves the merged manifest, creates or deletes the flagged assets, and moves the folder. When the load fails (the `TypeError` of `loadComponentFile`), nothing changes. |
| ConfirmationForm.ParseAction | web/modules/contrib/dab/src/Form/ConfirmationComponentForm.php:92-99 | Only `delete` and `duplicate` are actions, and the parse keeps the name. |
| ConfirmationForm.ParseActionName | web/modules/contrib/dab/src/Form/ConfirmationComponentForm.php:96 | Every action parses back from its name. |
| ConfirmationForm.FieldsOffered | web/modules/contrib/dab/src/Form/ConfirmationComponentForm.php:117-136 | The origin select appears exactly with more than one provider, offering those providers, and becomes checkboxes exactly for delete. The provider select appears exactly for duplicate, and the button is `danger` exactly for delete. |
| ConfirmationForm.OriginsAsWritten | web/modules/contrib/dab/src/Form/ConfirmationComponentForm.php:159-160 | A missing origin is wrapped as the single key `""`. |
| ConfirmationForm.Origins | web/modules/contrib/dab/src/Form/ConfirmationComponentForm.php:159-160 | The corrected origins: a missing origin means the component shown. |
| ConfirmationForm.AppliedAllUnknown | web/modules/contrib/dab/src/Form/ConfirmationComponentForm.php:162-165 | Origins that are not providers of the component are skipped: nothing changes. |
| ConfirmationForm.AppliedAllDeletes | web/modules/contrib/dab/src/Form/ConfirmationComponentForm.php:162-172 | Deleting keeps exactly what lies under none of the chosen component folders, with unchanged contents. |
| ConfirmationForm.SubmitAsWrittenWithoutChoice | web/modules/contrib/dab/src/Form/ConfirmationComponentForm.php:117-121 | As written, a component only one provider has is not deleted or duplicated by the confirmation. |
| ConfirmationForm.SubmitDeletesShown | web/modules/contrib/dab/src/Form/ConfirmationComponentForm.php:157-173 | With the corrected origins, confirming a delete removes exactly the shown component's folder. |
| ConfirmationForm.ConfirmationComponentForm.constructor | web/modules/contrib/dab/src/Form/ConfirmationComponentForm.php:53-61 | The form starts with the trait's `components` and `component` unset (PHP's `null`). |
| ConfirmationForm.ConfirmationComponentForm.BuildForm | web/modules/contrib/dab/src/Form/ConfirmationComponentForm.php:84-152 | The form is not found exactly when the guard fails. With the service, it is an error exactly when loading the data fails. Without it, it is an error exactly when the components were never set, since the template select then fails. Otherwise it offers the fields for the action. |
| ConfirmationForm.ConfirmationComponentForm.SubmitForm | web/modules/contrib/dab/src/Form/ConfirmationComponentForm.php:157-197 | With the components set, or no origin, the loop applies the action to each origin in turn. Otherwise the first origin meets the `TypeError` of `array_key_exists` on `null`, and nothing changes. |
| ExplorerForm.ById | web/modules/contrib/sdc_styleguide/src/Form/SDCExplorerForm.php:45 | The components are indexed by id, so every component's id is present. |
| ExplorerForm.ByIdLastWins | web/modules/contrib/sdc_styleguide/src/Form/SDCExplorerForm.php:45 | The last component with an id is kept. |
| ExplorerForm.OptionsListing | web/modules/contrib/sdc_styleguide/src/Form/SDCExplorerForm.php:43-51 | A group `<type>: <provider>` exists exactly when some component has it, and lists exactly its components' ids with their names. |
| ExplorerForm.WidgetOf | web/modules/contrib/sdc_styleguide/src/Form/SDCExplorerForm.php:76-95 | `string`, `number` and `boolean` map to textfield, number and checkbox. An array or object type is an illegal offset. |
| ExplorerForm.KeyOf | web/modules/contrib/sdc_styleguide/src/Form/SDCExplorerForm.php:91-93 | A required entry can be a key exactly when it is a scalar. |
| ExplorerForm.ElementFor | web/modules/contrib/sdc_styleguide/src/Form/SDCExplorerForm.php:92-97 | A required field fails exactly when its type is an illegal offset. |
| ExplorerForm.AddFieldsFails | web/modules/contrib/sdc_styleguide/src/Form/SDCExplorerForm.php:91-98 | Adding the required fields fails exactly when some entry is unusable. |
| ExplorerForm.AddFieldsPerKey | web/modules/contrib/sdc_styleguide/src/Form/SDCExplorerForm.php:91-98 | There is exactly one required element per key of `props.required`; other keys are unchanged. |
| ExplorerForm.AddFieldsFailureStays | web/modules/contrib/sdc_styleguide/src/Form/SDCExplorerForm.php:91-98 | Once an entry fails, the whole loop fails. |
| ExplorerForm.ValuesOf | web/modules/contrib/sdc_styleguide/src/Form/SDCExplorerForm.php:91 | The values `foreach` visits, in order. |
| ExplorerForm.RenderedProps | web/modules/contrib/sdc_styleguide/src/Form/SDCExplorerForm.php:124-132 | A result is rendered exactly when values were submitted. Its component is the submitted `component`, and its props are the submitted values without `component`. |
| ExplorerForm.ExplorerFieldsOfSelection | web/modules/contrib/sdc_styleguide/src/Form/SDCExplorerForm.php:81-98 | For a selected component, the fields are the hidden id and one element per required key, and no others. |
| ExplorerForm.FieldsForUsable | web/modules/contrib/sdc_styleguide/src/Form/SDCExplorerForm.php:84-98 | The selected component's elements: the hidden id and one element per required key. |
| ExplorerForm.ExplorerWithoutSelection | web/modules/contrib/sdc_styleguide/src/Form/SDCExplorerForm.php:81 | Without a truthy selection, no component fields are built. |
| ExplorerForm.CollectOptions | web/modules/contrib/sdc_styleguide/src/Form/SDCExplorerForm.php:41-51 | The loop computes the grouped options and the id index. |
| ExplorerForm.RequiredElements | web/modules/contrib/sdc_styleguide/src/Form/SDCExplorerForm.php:91-98 | The loop computes the selected component's elements. |
| ExplorerForm.BuildForm | web/modules/contrib/sdc_styleguide/src/Form/SDCExplorerForm.php:40-135 | The method returns the explorer's fields. |

## Left out

- The walk of `findExtensionName` as written is given a `fuel` bound, because it does not terminate on `.` or `/`. Running out of fuel (`OutOfFuel`) stands for the endless loop; the corrected walk needs no fuel.
- `realpath` is not modelled. Where FileManager.ComponentFileManager.DuplicateComponent resolves the new folder, the path is rebuilt from its `dirname` and `basename` (`Rejoin`), and FileManager.FolderPathSplits shows that this returns the same folder.
- Fs.Copy, Fs.Move: Drupal's file-system service throws where these leave the file system unchanged. `copy` throws `FileNotExistsException` for a missing source and `FileWriteException` when it cannot write. `move` throws the same way for a missing source or a failed rename, and by default it moves onto a free name (`<name>_0.<ext>`) when the target exists, where Fs.Move does nothing. The service is not part of this model, and its exceptions are not propagated.
- FileManager.ComponentFileManager.MoveComponentFolder: in Drupal a rename of `<old>.<ext>` onto an existing `<new>.<ext>` lands on `<new>_0.<ext>`, and a move that fails throws. Here both leave the file system as it was, and the call still reports success.
- FileManager.ComponentFileManager.DuplicateComponent: a `copy` or directory preparation that throws in Drupal is skipped here, and the duplicate still reports success.
- YAML, JSON and base64 are not parsed. A YAML file holds the value it encodes, and the decoders are function parameters.
- Twig rendering, Markdown, `t()` translation and escaping, and Drupal's render pipeline are left out. Templates, titles and markup are kept as their inputs.
- The messenger, the logger, redirects and the messages of the forms' `submitForm` are left out: they do not affect state.
- The dev-mode effects of the endpoint's `render` (cache and debug toggles) and the documentation route are left out.
- Numeric array keys, and PHP's loose comparison between numeric strings, are not modelled. Every key is a string, and loose `in_array` is written out only for `null == ""`.
- The order in which `FilesystemIterator` lists a folder is not fixed by PHP, so the listing is a parameter of the duplicate.
- The order of the deriver's link definitions, and the order of the fields inside a link definition, are not modelled. Links form a `map`, and a definition's fields are looked up by name.
- Query parameters are strings or absent. Array-valued query parameters are not modelled.
- Drupal's rule of keeping only the first error set on a form field is not modelled: validation returns every error it finds.
- The add form's machine-name `exists` callback (web/modules/contrib/dab/src/Form/AddComponentForm.php:230-241) is not modelled, because it only answers the machine-name widget.
- The explorer form's AJAX callbacks and its `submitForm` are left out: they only rebuild the form.
- ExplorerForm.WidgetOf: a prop `type` given as a list of types is an illegal offset in PHP and is modelled as that error. The model does not go on to render the field.
- The confirmation form's hidden `form_action` is modelled as the parsed `Action`, not as its raw text.
- FileManager.ComponentFileManager.Write: `fwrite` is a single append to the open file. Partial writes and write errors are not modelled.
- The other forms, services and files of the three modules are not part of this model.

## Findings

| source | as written | input that shows it | evidently intended | confidence | as-written member | corrected member |
|---|---|---|---|---|---|---|
| web/modules/contrib/cl_server/src/Controller/ServerEndpointController.php:260-271 | `findExtensionName` loops while `dirname` changes nothing at `.` or `/` | a path `.` with no `./..info.yml` | stop at the root and give `null` | high, not executed | Endpoint.FindExtensionNameAsWrittenDiverges | Endpoint.FindExtensionNameAgrees |
| web/modules/contrib/cl_server/src/Controller/ServerEndpointController.php:163-172 | a story file that is not found (`null`) is passed to `findExtensionName(string $path)`, a TypeError | story `button.stories.yml` on an empty file system | answer "component not found" | high, not executed | Endpoint.GetComponentAsWrittenFatal | Endpoint.GetComponent |
| web/modules/contrib/dab/src/Service/ComponentFileManager.php:463-476 | `$dir->next()` inside the `foreach` skips every second entry | folder `x` listing `.`, `..`, `a.twig`, `b.css` | copy every file of the folder | high, not executed | FileManager.DuplicateAsWrittenLosesFile | FileManager.DuplicateCopiesEveryFile |
| web/modules/contrib/dab/src/Traits/DabComponentTrait.php:82-85 | the guard joins its tests with `&&`, so a component without props reaches `array_key_exists` on `null` | any component whose definition has no `props` | no versions for such a component | high, not executed | ComponentData.VersionsAsWrittenFailsWithoutProps | ComponentData.ComponentVersions |
| web/modules/contrib/dab/src/Controller/DabComponentController.php:128-136 | `getComponentData` (`string $machine_name`) is called before the null check, so a null machine name is a TypeError | a request without a machine name | answer 404 | medium, not executed | ComponentController.ResolveAsWrittenNullMachineName | ComponentController.ResolveNotFound |
| web/modules/contrib/dab/src/Controller/DabComponentController.php:133-142 | the guard accepts a null provider, which is then passed to `getLibrariesFilesFromExtension(string $extension)` | an embed request without a provider | use the shown component's provider | medium, not executed | ComponentController.EmbedAsWrittenWithoutProvider | ComponentController.EmbedWithoutProvider |
| web/modules/contrib/dab/src/Form/AddComponentForm.php:288-295 | an unknown provider stores `null` in the `string` property `providerPath` | a provider that is neither a module nor a theme | report the unknown-provider error | high, not executed | AddForm.ValidationAsWrittenUnknownProvider | AddForm.Validation |
| web/modules/contrib/dab/src/Form/ConfirmationComponentForm.php:117-165 | the origin field exists only with more than one provider, so otherwise the origin is `[""]` and every origin is skipped | confirming a delete for a component only one provider has | act on the component shown | high, not executed | ConfirmationForm.SubmitAsWrittenWithoutChoice | ConfirmationForm.SubmitDeletesShown |
