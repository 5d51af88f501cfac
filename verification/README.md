# OCI SmartQuery: a Dafny model of the plan interpreter and the OCI helper

OCI SmartQuery lets a user ask questions about an Oracle Cloud
Infrastructure (OCI) tenancy in natural language. A local language model
turns each question into a JSON *plan*: a list of steps. Each step names an
MCP tool, its arguments and an optional `save_as` variable. The MCP client
runs the plan step by step against an MCP server, and the server answers
through an OCI helper. This project models the deterministic core of that
pipeline and proves properties of it:

- **Resolver.dfy** models `resolve_value`. A `$var` or `$var.field`
  argument is replaced by a saved variable. `$var` auto-unwraps a
  `{"result": X}` dict. The four error kinds are modelled as
  `ResolveError`.
- **Normalizer.dfy** models `unwrap_mcp_result`, which turns a raw tool
  result into a JSON value. `structuredContent` is preferred and a
  `"result"` key is unwrapped. Otherwise the non-empty text parts are
  stripped, each is parsed as JSON when it looks like JSON, and one part
  comes back alone while several come back as a list.
- **Interpreter.dfy** models `execute_plan` as an imperative loop over a
  transport client (`McpClient`, which logs every `call_tool`). It also
  holds the value-level `Execute` that the loop is proved equal to, and
  lemmas about success, failure, bindings and the calls made.
- **PathUtils.dfy** models `clean_path`. It trims the path, collapses
  slashes and drops a leading `root` segment.
- **Oci.dfy** models the OCI helper:
  - `CompartmentCache`;
  - `get_compartment_ocid` (class `OciHelper`), with its per-path cache and
    its walk from the tenancy through the compartment tree;
  - the `_VALID_STATES` filter of the instance listing and of the by-name
    lookup, over paginated listings;
  - the subnet lookups;
  - the image lookups by name prefix.
- **Json.dfy**, **PyText.dfy**, **Seqs.dfy** and **Wrappers.dfy** are
  support modules:
  - JSON values, whose dicts are ordered key/value lists like Python dicts;
  - Python's `str.strip`, `lstrip`, `split`, `join`, `lower` and
    `startswith`;
  - generic filters, first-match search and page flattening;
  - `Option` and `Result`.

A run of a plan is observed through two additions that the source does
not return: the log of the tool calls it made, and the trace of the steps
completed before it ended (the `raw_results` list at that point). These
let the contracts say which step stopped a failing plan and what it had
invoked. The program's own exceptions carry no step index, except the
missing-tool message and the resolver's messages.

External services are parameters of the model:
- The MCP server's answer to the n-th call is `respond(n, tool, args)`.
- JSON parsing is a function `parse` that may fail.
- The OCI service's listings are given as data: child compartments by
  `(parent, name)`, instance pages, subnets and images.

Where the code and its documentation differ, the model follows the code:
- a plan without a `steps` key is an empty plan;
- any dict that *contains* `"result"` is unwrapped by the normaliser;
- content whose parts are all empty gives an empty list, not `None`;
- `save_as` loses every leading `$`;
- `clean_path` is not idempotent: `root/root` gives `root`, and `root`
  gives the empty path (`PathUtils.NotIdempotent`).

## Model

| member | source | states |
|---|---|---|
| Resolver.ReferencedName | mcp_client/ollama/smart_ollama_mcp_client.py:130-135 | a value is a reference exactly when it is a string starting with `$`; the referenced name contains no `.` and is either the whole text after `$` or that text up to its first `.` (the split is at the first dot) |
| Resolver.ResolveValue | mcp_client/ollama/smart_ollama_mcp_client.py:121-184 | a non-reference comes back unchanged; every failure comes from a reference and names the current step, and "not found" and "null" errors name the argument key |
| Resolver.PlainReference | mcp_client/ollama/smart_ollama_mcp_client.py:162-181 | `$name`: a missing name is a KeyError and a null variable a ValueError; a dict whose only key is `result` resolves successfully to that value; any other value is returned as stored |
| Resolver.FieldReference | mcp_client/ollama/smart_ollama_mcp_client.py:133-160 | `$name.field`: a missing name is a KeyError, a null variable a ValueError naming the field, a non-dict a TypeError, and a missing field a KeyError; otherwise the field's value, with no unwrapping |
| Resolver.SplitAtFirstDot | mcp_client/ollama/smart_ollama_mcp_client.py:134-135 | `name.field` with a dot-free name splits into exactly that name and that field, even when the field holds further dots |
| Resolver.ReadsOnlyReferencedName | mcp_client/ollama/smart_ollama_mcp_client.py:121-184 | resolution depends only on the one variable the reference names: two variable maps that agree on it give the same result |
| Normalizer.UnwrapResultKey | mcp_client/ollama/smart_ollama_mcp_client.py:80-81 | a dict containing `"result"` gives the value under that key, and other keys are ignored; any other value is returned as is |
| Normalizer.UnwrapMcpResult | mcp_client/ollama/smart_ollama_mcp_client.py:68-114 | the loop over the content parts computes exactly the normalised value `Normalize` of the raw result |
| Normalizer.CollectAppend | mcp_client/ollama/smart_ollama_mcp_client.py:88-107 | the parts collected from a concatenation are those of each half, in order |
| Normalizer.CollectIsConvertedTextParts | mcp_client/ollama/smart_ollama_mcp_client.py:88-107 | the collected parts are, one for one and in order, the parts with non-empty text, each converted from its text |
| Normalizer.StructuredWins | mcp_client/ollama/smart_ollama_mcp_client.py:77-82 | a non-null structuredContent decides the result whatever the content list holds |
| Normalizer.TextPartCases | mcp_client/ollama/smart_ollama_mcp_client.py:92-107 | a text part becomes its stripped text unless that starts with `{` or `[` and parses, in which case it becomes the parsed value with `result` unwrapped; malformed JSON degrades to text |
| Normalizer.ContentShape | mcp_client/ollama/smart_ollama_mcp_client.py:84-114 | with no structuredContent, a missing or empty content list gives null; one kept part gives that part alone; otherwise the result is a list whose item i is kept part i converted from its text |
| Normalizer.AllPartsEmpty | mcp_client/ollama/smart_ollama_mcp_client.py:85-112 | a non-empty content list whose parts all lack text gives an empty list, not null |
| Normalizer.StructuredExample | mcp_client/ollama/smart_ollama_mcp_client.py:79-81 | structuredContent `{"result": {"a": 1}}` gives `{"a": 1}` |
| Normalizer.JsonTextExample | mcp_client/ollama/smart_ollama_mcp_client.py:95-101 | one text part `{"result": [1,2,3]}` gives the list `[1,2,3]` |
| Normalizer.OnePlainPart | mcp_client/ollama/smart_ollama_mcp_client.py:109-111 | a single plain text part gives that text itself, not a one-element list |
| Normalizer.TwoPlainParts | mcp_client/ollama/smart_ollama_mcp_client.py:109-112 | two plain text parts give the list of both texts, in order |
| Interpreter.McpClient.constructor | mcp_client/mcp_client_helper.py:23-24 | a new client has made no calls and answers through the given server |
| Interpreter.McpClient.CallTool | mcp_client/mcp_client_helper.py:26-35 | a call is appended to the log, and its answer is the server's answer to that call given the number of calls made before it |
| Interpreter.SaveNameIsStrippedSaveAs | mcp_client/ollama/smart_ollama_mcp_client.py:241-245 | a step saves exactly when its `save_as` is a string whose `strip()` is non-empty, and it saves under that string with every leading `$` removed |
| Interpreter.ResolveArgs | mcp_client/ollama/smart_ollama_mcp_client.py:206-209 | resolving a step's arguments fails only with an error that names that step |
| Interpreter.ResolveArgsSucceeds | mcp_client/ollama/smart_ollama_mcp_client.py:207-209 | when every argument resolves, the resolved arguments keep the keys and order of the originals and hold each argument's resolved value |
| Interpreter.ResolveArgsFirstFailure | mcp_client/ollama/smart_ollama_mcp_client.py:207-209 | when argument `j` is the first that fails, the step fails with exactly that argument's error |
| Interpreter.ResolveArgsInOrder | mcp_client/ollama/smart_ollama_mcp_client.py:207-209 | the loop over `args.items()` returns the same result as `ResolveArgs`, so the first failing argument's error is raised |
| Interpreter.StoreDomain | mcp_client/ollama/smart_ollama_mcp_client.py:241-245 | a name is bound exactly when some recorded step saved under it |
| Interpreter.StoreLastWriteWins | mcp_client/ollama/smart_ollama_mcp_client.py:241-245 | a bound name holds the normalised result of the last step that saved under it |
| Interpreter.StoreSnoc | mcp_client/ollama/smart_ollama_mcp_client.py:242-245 | recording one more step binds its result under its save name, if it has one, and changes nothing else |
| Interpreter.StepRanLast | mcp_client/ollama/smart_ollama_mcp_client.py:198-239 | the trace entry of a step that was read, resolved against the variables saved so far and answered by the server records the step number, the tool, the resolved arguments, the raw answer and its normalised value |
| Interpreter.ReachedNext | mcp_client/ollama/smart_ollama_mcp_client.py:198-245 | one more faithful step keeps the invariant: every trace entry is faithful, the variables are the bindings of the trace, and the call log is the trace's calls |
| Interpreter.RunStepsOutcome | mcp_client/ollama/smart_ollama_mcp_client.py:198-259 | from a faithful state the run either succeeds with one faithful entry per step, or stops at a later step whose predecessors all ran faithfully and which failed as `StoppedAt` says |
| Interpreter.ExecutePlan | mcp_client/ollama/smart_ollama_mcp_client.py:187-259 | the imperative loop returns the result `Execute` gives, and the client's log grows by exactly the calls `Execute` makes |
| Interpreter.ExecuteSucceeds | mcp_client/ollama/smart_ollama_mcp_client.py:187-259 | a successful plan has one trace entry per step; entry `k` is step `k+1` run against the variables saved by the steps before it; the variables are the bindings of all steps; the log holds exactly the trace's calls, in order |
| Interpreter.ExecuteFails | mcp_client/ollama/smart_ollama_mcp_client.py:194-214 | a `steps` that is not a list fails before any call; otherwise the run stops at a step s: steps 1..s-1 ran faithfully, each with one call; step s could not be read (no call), or an argument failed to resolve against the variables saved so far (no call), or its one call failed; the log is exactly those calls; `MissingTool` and resolver errors name step s |
| Interpreter.ExecuteBindings | mcp_client/ollama/smart_ollama_mcp_client.py:241-245 | after a successful plan a variable is bound exactly when some step saved under it, and it holds the result of the last such step |
| Interpreter.StoppedAtCalls | mcp_client/ollama/smart_ollama_mcp_client.py:198-214 | a stopped run kept the earlier log, made one call per completed step plus one only when the tool failed, and an error that names a step names the stopping step |
| Interpreter.UnsavedVariableStopsStep | mcp_client/ollama/smart_ollama_mcp_client.py:163-167 | a plan whose step 2 reads `$missing`, which step 1 did not save, fails with step 2's KeyError for argument `id` after exactly step 1's call |
| Interpreter.MissingStepsIsEmptyPlan | mcp_client/ollama/smart_ollama_mcp_client.py:194 | a plan without `steps` returns no variables and an empty trace, and makes no call |
| Interpreter.MissingArgsAreEmpty | mcp_client/ollama/smart_ollama_mcp_client.py:200 | a step whose `args` is missing or null runs with no arguments |
| Interpreter.BlankSaveAsBindsNothing | mcp_client/ollama/smart_ollama_mcp_client.py:242 | the blank `save_as` `"  "` binds no variable (the general case is `SaveNameIsStrippedSaveAs`) |
| PathUtils.Segments | common/utils.py:28 | the kept segments of a path are non-empty and contain no `/` |
| PathUtils.Relative | common/utils.py:33-37 | at most one segment is dropped, from the front, and the rest are kept in order; a segment is dropped exactly when the first one is `root`, ignoring case |
| PathUtils.CleanPathIsRelativeSegments | common/utils.py:13-39 | the cleaned path is the `/`-join of the path's non-empty segments with a leading `root` removed; later `root` segments stay |
| PathUtils.SegmentsOfJoin | common/utils.py:28-33 | joining non-empty slash-free segments and splitting again gives the same segments back, and the join is empty only for no segments |
| PathUtils.CleanPathShape | common/utils.py:28-39 | the result is empty exactly when no segment remains; otherwise splitting it gives exactly the remaining segments |
| PathUtils.CleanPathHasNoEmptySegment | common/utils.py:15-16 | a non-empty result has no empty segment: repeated, leading and trailing slashes are gone |
| PathUtils.CleanPathKeepsInputSegments | common/utils.py:28-39 | every segment of the result is a non-empty segment of the trimmed input |
| PathUtils.BlankOrSlashesIsTenancy | common/utils.py:28-31 | a blank path, or one made only of slashes, cleans to the empty path (the tenancy) |
| PathUtils.CleanPathOfPieces | common/utils.py:28-39 | a trimmed path built from slash-free pieces cleans to the join of its non-empty pieces, less a leading `root` |
| PathUtils.SegmentsBehindRoot | common/utils.py:28 | the segments of `root/` followed by a path are `root` followed by that path's segments |
| PathUtils.RootPrefixIsRedundant | common/utils.py:35-37 | prefixing `root/` to a path that does not itself start with `root` does not change its cleaned form |
| PathUtils.SingleSegment | common/utils.py:28-39 | one trimmed segment cleans to itself, or to the tenancy when it is `root` |
| PathUtils.SlashThenSegment | common/utils.py:21 | `/` followed by one segment cleans to that segment, or to the tenancy when it is `root` |
| PathUtils.RootThenSegment | common/utils.py:22 | `root/` followed by one segment cleans to that segment |
| PathUtils.RootThenTwoSegments | common/utils.py:23 | `root///a/b/` cleans to `a/b` |
| PathUtils.PlainNameExample | common/utils.py:20 | `test` gives `test` |
| PathUtils.LeadingSlashExample | common/utils.py:21 | `/test` gives `test` |
| PathUtils.RootPrefixExample | common/utils.py:22 | `root/test` gives `test` |
| PathUtils.RootExample | common/utils.py:24 | `root` gives the empty path, the tenancy itself |
| PathUtils.SlashExample | common/utils.py:25 | `/` gives the empty path, the tenancy itself |
| PathUtils.NotIdempotent | common/utils.py:35-37 | only the first `root` is dropped: `root/root` gives `root`, and cleaning again gives the tenancy |
| Oci.CompartmentCache.constructor | mcp_server/oci_helper.py:28-29 | a new cache is empty |
| Oci.CompartmentCache.Get | mcp_server/oci_helper.py:30-31 | a lookup finds an entry exactly when the path is cached, and returns that entry |
| Oci.CompartmentCache.Set | mcp_server/oci_helper.py:32-33 | storing binds the path to the id, after which `Get` returns it, and leaves every other path as it was |
| Oci.FindChildIsFirstExactMatch | mcp_server/oci_helper.py:89 | the child found is the first whose name equals the segment exactly; none is found exactly when no name matches |
| Oci.QueriesShape | mcp_server/oci_helper.py:82-94 | the walk asks the first segment under the tenancy and the k-th query is for the k-th segment; it asks at most once per segment, and exactly once per segment when it succeeds |
| Oci.ResolveAppend | mcp_server/oci_helper.py:82-94 | walking `a + b` is walking `a` and then walking `b` from where `a` ended; a failure in `a` stops the walk |
| Oci.QueriesAppend | mcp_server/oci_helper.py:82-94 | the queries for `a + b` are those for `a` followed, only when `a` resolved, by those for `b` from its end |
| Oci.FailureIsLastQuery | mcp_server/oci_helper.py:89-94 | a failed walk names a segment of the path together with its parent, and that pair is the last query issued |
| Oci.WalkAdvance | mcp_server/oci_helper.py:82-94 | one loop iteration either fails with "not found" for the current segment and parent, after exactly the queries asked so far plus this one, or moves to the found child |
| Oci.WalkSegments | mcp_server/oci_helper.py:78-94 | the loop over the segments returns the walk's result and issues exactly the walk's queries |
| Oci.OciHelper.constructor | mcp_server/oci_helper.py:39-52 | a new helper has an empty compartment cache and has issued no query |
| Oci.OciHelper.GetCompartmentOcid | mcp_server/oci_helper.py:63-97 | the result, the new cache and the queries issued are those of one compartment lookup of the cleaned path |
| Oci.OciHelper.LookupCleanPath | mcp_server/oci_helper.py:70-97 | the same, for a path that is already clean |
| Oci.BlankPathIsTenancy | mcp_server/oci_helper.py:69-71 | a blank or all-slash name gives the tenancy id, with no query and no cache change |
| Oci.MissAsksForEachSegment | mcp_server/oci_helper.py:78-94 | on a cache miss the walk starts at the tenancy, and its k-th query is for the k-th non-empty segment of the path |
| Oci.HitAsksNothing | mcp_server/oci_helper.py:73-76 | a truthy cache entry is returned with no query and no cache change |
| Oci.FailureLeavesCache | mcp_server/oci_helper.py:89-96 | a failed lookup leaves the cache unchanged and names a segment of the path and the parent it was looked for under, which was the last query |
| Oci.WalkCachesOnlyFullPath | mcp_server/oci_helper.py:96-97 | a successful walk caches the full cleaned path and nothing else, after one query per segment |
| Oci.SecondLookupHitsCache | mcp_server/oci_helper.py:73-97 | repeating a successful lookup that found a non-empty id gives the same id from the cache, with no query |
| Oci.RootSpellingSharesEntry | mcp_server/oci_helper.py:68-76 | `root/x` and `x` are looked up, and cached, as the same path |
| Oci.GetListOfInstances | mcp_server/oci_helper.py:99-137 | the listing is the instances of all pages, in page order, keeping only those in a valid state when `only_active` is set |
| Oci.AddListed | mcp_server/oci_helper.py:117-131 | one page adds, in order, exactly its instances that pass the state filter |
| Oci.ActiveListingIsValid | mcp_server/oci_helper.py:55-61 | with `only_active` every listed instance is in one of the five valid states, so none is TERMINATED |
| Oci.FullListingIsEverything | mcp_server/oci_helper.py:117-119 | without `only_active` every instance of every page is listed |
| Oci.GetInstanceByName | mcp_server/oci_helper.py:139-182 | the result is the first instance across pages whose name matches ignoring case and whose state passes the filter, and `None` exactly when no instance matches |
| Oci.FoundOnPage | mcp_server/oci_helper.py:162-168 | a match with no match before it, on its page or on earlier pages, is the first match of the whole listing |
| Oci.ByNameIsFirstOfMatches | mcp_server/oci_helper.py:146-147 | the by-name result is the head of the list of all matches, or `None` when that list is empty |
| Oci.ByNameIsListed | mcp_server/oci_helper.py:162-166 | an instance found by name also appears in the full listing under the same state filter |
| Oci.GetSubnetByName | mcp_server/oci_helper.py:184-203 | the compartment is checked first, then the name: each empty one is a ValueError naming it; an empty listing is a RuntimeError and any other failure is that one; otherwise the first listed subnet's id |
| Oci.GetAvailableSubnets | mcp_server/oci_helper.py:205-232 | an empty compartment is a ValueError and any other failure is the empty-listing RuntimeError; otherwise one record per subnet, in order, with its id and name |
| Oci.DescribeAll | mcp_server/oci_helper.py:327-335 | one record per image, in order; record i has image i's id, name, creation time and state |
| Oci.GetLatestImageByPrefix | mcp_server/oci_helper.py:234-277 | the compartment is checked first, then the prefix, each empty one a ValueError naming it; any other failure is "no images found"; it succeeds exactly when some image of the listing has a non-empty name with the prefix, ignoring case, and then returns the first such image |
| Oci.GetImagesByPrefix | mcp_server/oci_helper.py:279-335 | the same errors in the same order; on success, exactly the images with the prefix, in listing order, described |
| Oci.ImagesByPrefixAreTheMatches | mcp_server/oci_helper.py:313-334 | every image with the prefix appears among the results |
| Oci.LatestIsFirstOfAll | mcp_server/oci_helper.py:250-270 | when the first page has a match, the latest image is the first of all the matches |
| Oci.LatestMissesLaterPages | mcp_server/oci_helper.py:250-268 | as written: a prefix matched only after the first page makes the latest-image lookup fail although the all-images lookup finds it |
| Oci.GetLatestImageOverAllPages | mcp_server/oci_helper.py:234-277 | corrected: the same errors in the same order; the first image with the prefix over all pages, failing exactly when no image of any page matches |
| Oci.OverAllPagesAgreesOnFirstPage | mcp_server/oci_helper.py:250-270 | the corrected lookup returns the same image as the original whenever the first page has a match |

## Left out

- The planner is not modelled: it covers the prompt to the language model, the HTTP call that obtains a plan, and its JSON decoding. A plan is an input.
- The console and the Streamlit UIs are not modelled, and neither is printing or logging.
- The MCP transport is not modelled. The server's answer to a call is the function `respond` of the call count and the call, and a transport exception is a failure message.
- The MCP server's tool wrappers in `mcp_server/mcp_oci_server.py` and the scripts are not part of this model.
- Configuration loading and SDK client construction are not modelled. The tenancy id and the listings are parameters.
- JSON text parsing is the parameter `parse`. Parsing itself and the serialisation of numbers are not modelled. JSON numbers are reals.
- Python's `str.lower` is modelled on ASCII letters only; other characters are left unchanged. `str.strip` removes Python's whitespace characters.
- Page tokens and `has_next_page` are not modelled. A paginated listing is given as its sequence of pages. The server-side `display_name` filter and the sort order are properties of that data, not of the model.
- The single-page listings of `get_subnet_by_name`, `get_available_subnets` and `get_latest_image_by_prefix` are not modelled as calls. Each is given as the listing the service returned.
- The instance, subnet and image records carry the fields the source copies into its results, but no contract speaks of `shape`, `availability_domain`, `compartment_id`, `metadata` or a subnet's `cidr_block`, `lifecycle_state` and `vcn_id`. The `getattr` fallbacks are modelled only as optional fields. Error messages are not modelled: errors are constructors carrying their data.
- Exceptions raised by the OCI SDK itself (a `ServiceError` from `list_compartments`, `list_instances`, `list_subnets` or `list_images`) are not modelled. The listings are given as data and always succeed. In the source such an exception propagates out of the helper; from `get_compartment_ocid` it leaves the cache unchanged because it happens before the write.
- `delete_instance` is not modelled because it depends on the clock and on sleeping. `create_instance` is not modelled because it only raises `NotImplementedError`.
- Concurrent use of the helper and of its cache is not modelled. The source has no synchronisation.
- `get_compartment_ocid` is not modelled for an empty segment list. After cleaning, a non-empty path always has segments, so `last_ocid` is never `None` when it is cached.
- Oci.WalkSegments: the loop of `get_compartment_ocid` is a method of its own, so that the cache handling and the walk are proved separately.
- Oci.AddListed: the loop over one page is a method of its own, called once per page by `GetListOfInstances`.
- Oci.OciHelper.LookupCleanPath: `get_compartment_ocid` after `clean_path` is a method of its own, so that cache properties can be stated for an already-clean path.
- Duplicate dict keys are not resolved the way `json.loads` resolves them (there the last duplicate wins). In the model a dict is an ordered key/value list, and `Lookup` returns the first entry for a key.

## Findings

| source | as written | input that shows it | evidently intended | confidence | as-written member | corrected member |
|---|---|---|---|---|---|---|
| mcp_server/oci_helper.py:250-256 | `get_latest_image_by_prefix` calls `list_images` once and filters only the first page of results | a compartment whose first page of AVAILABLE images has no name with the prefix while a later page has one: the lookup raises "No images found" although `get_images_by_prefix` returns that image | search every page, as `get_images_by_prefix` does with `list_call_get_all_results`, and return the first match | not executed | Oci.LatestMissesLaterPages | Oci.GetLatestImageOverAllPages |
