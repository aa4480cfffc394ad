# erxes core decisions, modelled in Dafny

This project models the small, deterministic decision and transformation
logic of the erxes platform, and proves properties of the model. Every part
is a pure function of explicit inputs. Local storage, the URL query, Apollo
query states, environment variables, stored configs, the file system and
the worker outcomes are passed in as values, and the new state is returned.

- `BoardNumber` (`board_number.dfy`): `numberCalculator`, the zero-padded
  board item number.
- `UploadCheck` (`upload_check.dfy`): the `checkFile` verdict over the
  file size, the detected MIME type, the declared MIME type and the
  configured allow-list.
- `CoreConfig` (`configs.dfy`): `getConfig`, `getSubServiceDomain`,
  `isUsingElk`, `frontendEnv` and `configReplacer`.
- `DashboardBroker` (`broker.dfy`): the two RPC reply envelopes of the
  dashboard service, and the routing on `content.action`.
- `Supergraph` (`supergraph.dfy`): the gateway's supergraph configuration
  built from the proxy targets, the copy-if-changed staging of the
  configuration and the composed schema, and the development poll.
- `Tags` (`tags.dfy`): the tag list's slice, its overflow badge and its
  class name, both as written and with the overflow guard corrected (see
  "Findings").
- `KnowledgeRow` (`knowledge_row.dfy`): the knowledge base accordion, a set
  of open topic ids kept in local storage.
- `SelectFields` (`select_fields.dfy`): the automation placeholder
  field picker. It covers the initial selection, adding a field, removing a
  field and the list of fields still on offer.
- `BoardActionBar` (`board_action_bar.dfy`): the boards container. It
  resolves the board and pipeline to show from the URL, the stored per-type
  defaults and the query results. It also reads and edits the filter
  parameters of the URL.
- `DealActionBar` (`deal_action_bar.dfy`): the deals container's variant of
  that resolution.
- Shared helpers:
  - `Wrappers` holds `Option`, `Result` and map lookup.
  - `Seqs` holds `Array.prototype.filter`.
  - `Text` holds JavaScript's number-to-string, `parseInt` digits, the
    global and first-match `replace`, and `split`/`join`.

JavaScript behaviour is written out where it matters:
- truthiness, where `""`, `0` and an absent value are false;
- `slice` with a negative end;
- `parseInt` on a string's leading digits, and `NaN` written as `"NaN"`;
- object properties that keep their first insertion position when they are
  overwritten (for keys that are not integer-like; see "Left out");
- `String.prototype.replace` with a `/g` pattern, which replaces every
  occurrence left to right, and with a string pattern, which replaces only
  the first.

## Model

| member | source | states |
|---|---|---|
| `BoardNumber.NumberCalculator` | packages/api-core/src/data/utils.ts:1057-1073 | Fails exactly when `num` is absent and `skip` is unset, because `undefined` has no `toString`. Otherwise the result is the unpadded text (see `Unpadded`: the decimal successor, `"NaN"` for a string without leading digits, or `""` for an empty string) left-padded with `'0'` only, to length `max(size, length of that text)`. With `skip` every character is `'0'` and the length is `max(size, 1)`. A number string that parses gives a result that parses back to `parseInt(num) + 1`, and so does a non-zero number. |
| `BoardNumber.Unpadded` | packages/api-core/src/data/utils.ts:1057-1065 | The text before padding. It fails with the `toString` type error iff `num` is absent and `skip` is unset. With `skip` it is `"0"`. A string with leading digits gives `toString` of one more than their value, which is canonical decimal text (no leading zero) that parses back to that number. A non-empty string without them gives `"NaN"`, and an empty string gives `""`. A number gives `toString` of one more, except `0`, which is falsy and stays `"0"`. |
| `BoardNumber.PadStart` | packages/api-core/src/data/utils.ts:1068-1070 | The padding loop yields length the larger of `size` and the digit count, and the digits prefixed only by zeros. |
| `BoardNumber.LeadingDigits` | packages/api-core/src/data/utils.ts:1059 | `parseInt` reads the longest digit prefix: the prefix is all digits, and whatever follows it is not a digit. |
| `BoardNumber.LeadingDigitsOfDigits` | packages/api-core/src/data/utils.ts:1059 | On a string of digits only, the digit prefix is the whole string. |
| `BoardNumber.ParsePadded` | packages/api-core/src/data/utils.ts:1059-1072 | Round trip: `parseInt` of a zero-padded decimal gives back the number, so a padded board number parses back to its value. |
| `Text.Decimal` | packages/api-core/src/data/utils.ts:1066 | `toString` of a natural number is a non-empty digit string with no leading zero, except `"0"` itself. |
| `Text.ValueOfDecimal` | packages/api-core/src/data/utils.ts:1066 | Reading the digits of `toString(n)` gives back `n`. |
| `Text.LeadingZerosAreInsignificant` | packages/api-core/src/data/utils.ts:1068-1070 | Prefixing zeros does not change the value of a digit string. |
| `UploadCheck.CheckFile` | packages/api-core/src/data/utils.ts:413-484 | The check fails with `Invalid file` exactly when no file is given. A file over 20·1024·1024 bytes is `Too large file` before any type check. With no detected type, a declared type in the four-entry unsupported list is `ok`, and anything else is `Invalid file type`. A detected `application/x-msi` with a declared old Office type is `ok`. Any other detected type is `ok` iff it is in the allowed list, otherwise `Invalid configured file type`. The verdict is always one of four strings. |
| `UploadCheck.AllowedMimeTypes` | packages/api-core/src/data/utils.ts:460-478 | The allow-list is never empty. It is the seven default types when the config entry (`WIDGETS_UPLOAD_FILE_TYPES` for widgets, otherwise `UPLOAD_FILE_TYPES`) is absent or empty. Otherwise it is the configured value split at the commas: no entry holds a comma, and joining the entries with commas gives back the configured value. |
| `UploadCheck.AcceptedFilesAreSmall` | packages/api-core/src/data/utils.ts:414-423 | Any accepted upload was present and at most 20·1024·1024 bytes. |
| `UploadCheck.ConfiguredListDecides` | packages/api-core/src/data/utils.ts:470-483 | For a configured comma-separated list of comma-free types, a small file whose detected type is not the MSI type is accepted iff that type is one of the listed types. |
| `Text.Split` | packages/api-core/src/data/utils.ts:476 | `split(',')` yields at least one part, and no part holds a comma. |
| `Text.JoinSplit` | packages/api-core/src/data/utils.ts:476 | Joining the parts of a split with the separator gives back the original string. |
| `Text.SplitJoin` | packages/api-core/src/data/utils.ts:476 | Splitting a join of separator-free parts gives back the parts. |
| `CoreConfig.GetConfig` | packages/api-core/src/data/utils.ts:932-940 | The stored value when the code is present with a non-empty value, otherwise the default. An empty result can only come from an empty default. |
| `CoreConfig.GetConfigTruthyWithTruthyDefault` | packages/api-core/src/data/utils.ts:935-939 | With a non-empty default the lookup always gives a non-empty value. |
| `CoreConfig.GetSubServiceDomain` | packages/api-core/src/data/utils.ts:967-987 | A non-empty environment value for the name wins. Otherwise the result is `MAIN_APP_DOMAIN` followed by the name's fixed path, or nothing for names outside the seven mappings. |
| `CoreConfig.DefaultSubServiceDomainsDistinct` | packages/api-core/src/data/utils.ts:970-978 | Two different mapped names without an environment override get different domains. |
| `CoreConfig.IsUsingElk` | packages/api-core/src/data/utils.ts:1033-1037 | Elasticsearch is off iff `ELK_SYNCER` is exactly `"false"`. |
| `CoreConfig.CookieEnvsLastWins` | packages/api-core/src/data/utils.ts:955-962 | After the loop over the cookies, a name is defined iff some cookie key rewrites to it. Its value is that of the last such cookie. |
| `CoreConfig.EnvKey` | packages/api-core/src/data/utils.ts:961 | A key that starts with `REACT_APP_` loses that prefix. A key without `REACT_APP_` is kept. |
| `CoreConfig.CookieEnvs` | packages/api-core/src/data/utils.ts:955-962 | The `envs` object has at most one property per cookie, and the last cookie's rewritten key holds that cookie's value. |
| `CoreConfig.FrontendEnv` | packages/api-core/src/data/utils.ts:946-965 | `frontendEnv` is undefined iff no cookie key, with its first `REACT_APP_` removed, equals the name. Otherwise it is the last matching cookie's value. |
| `CoreConfig.PrefixedCookieFound` | packages/api-core/src/data/utils.ts:961-964 | A `REACT_APP_`-prefixed cookie is found under its unprefixed name. |
| `Text.ReplaceFirstWithoutOccurrence` | packages/api-core/src/data/utils.ts:961 | A key without `REACT_APP_` is kept as it is. |
| `CoreConfig.ConfigReplacer` | packages/api-core/src/data/utils.ts:1075-1083 | No `{year}`, `{month}` or `{day}` is left in the result. Text without placeholders is returned unchanged. What each placeholder becomes is stated by `FieldsInPlace` and `MonthIsOneBased`. |
| `CoreConfig.ReplacementPasses` | packages/api-core/src/data/utils.ts:1079-1082 | After the three passes with digit replacements, none of the three placeholders occurs. |
| `CoreConfig.DigitsShareNothingWithPlaceholders` | packages/api-core/src/data/utils.ts:1080-1082 | A digit string shares no character with any placeholder, so a replacement cannot create a placeholder. |
| `CoreConfig.MonthIsOneBased` | packages/api-core/src/data/utils.ts:1081 | A `{month}` between placeholder-free text becomes `getMonth() + 1`, and the rest of the text is unchanged. |
| `CoreConfig.FieldsInPlace` | packages/api-core/src/data/utils.ts:1075-1083 | In a template holding `{year}`, `{month}` and `{day}` between placeholder-free text, they become the full year, `getMonth() + 1` and `getDate()`, each where its placeholder stood, and the text around them is kept. |
| `CoreConfig.ThreePasses` | packages/api-core/src/data/utils.ts:1080-1082 | Three global passes over three distinct placeholders, set between brace-free text, put each replacement where its placeholder stood. |
| `CoreConfig.PassHitsPlaceholder` | packages/api-core/src/data/utils.ts:1080-1082 | A placeholder pass copies brace-free text, replaces the placeholder that follows it, and carries on after it. |
| `CoreConfig.PassSkipsPlaceholder` | packages/api-core/src/data/utils.ts:1080-1082 | A placeholder pass copies brace-free text and a different placeholder that follows it, and carries on after them. |
| `CoreConfig.MonthPass` | packages/api-core/src/data/utils.ts:1081 | The month pass replaces exactly the one `{month}` and keeps the text around it. |
| `CoreConfig.PassLeavesOtherPlaceholder` | packages/api-core/src/data/utils.ts:1080-1082 | A pass for one placeholder leaves text alone whose only `{` opens a different placeholder. |
| `CoreConfig.FreeOfBraceIsKept` | packages/api-core/src/data/utils.ts:1080-1082 | Text without `{` passes through every placeholder pass unchanged. |
| `Text.ReplaceAllWithoutOccurrence` | packages/api-core/src/data/utils.ts:1080-1082 | A global replace of a pattern that does not occur returns the text unchanged. |
| `Text.ReplaceAllSkipsPrefix` | packages/api-core/src/data/utils.ts:1080-1082 | A global replace copies through a prefix that holds no character the pattern starts with. |
| `Text.ReplaceAllLeavesNoOccurrence` | packages/api-core/src/data/utils.ts:1080-1082 | After a global replace whose replacement shares no character with a pattern `p`, `p` does not occur, provided `p` is the replaced pattern or did not occur before. |
| `DashboardBroker.Route` | packages/dashboard/src/messageBroker.ts:22-25 | Action `removeImport` goes to `receiveImportRemove`, and every other action, a missing one included, goes to `receiveImportCreate`. |
| `DashboardBroker.HandleWorkersRequest` | packages/dashboard/src/messageBroker.ts:18-32 | The worker is chosen by the action. The reply is always an envelope whose status is `success` or `error`. A returned value gives `success`, that value as data and an empty error message. A throw gives `error`, the thrown message and data `{}`. |
| `DashboardBroker.HandleWebhookRequest` | packages/dashboard/src/messageBroker.ts:34-45 | The reply's data is always `{}`. The status is `success` iff the import returned. On a throw the error message is the exception's message. |
| `DashboardBroker.WorkersReplyRoundTrip` | packages/dashboard/src/messageBroker.ts:19-31 | Reading the worker reply back gives the routed worker's outcome: its value, or its error message. |
| `DashboardBroker.WebhookReplyRoundTrip` | packages/dashboard/src/messageBroker.ts:35-44 | Reading the webhook reply back gives `{}` or the import's error message. |
| `Supergraph.Put` | packages/gateway/src/apollo-router/supergraph-compose.ts:34-39 | Assigning `subgraphs[name]` adds the name to the keys. It keeps keys distinct and makes the name map to the new value, and other names keep their values. An existing name keeps its position, and a new one is appended. |
| `Supergraph.Subgraphs` | packages/gateway/src/apollo-router/supergraph-compose.ts:32-40 | The loop's result; what it holds is stated by `SubgraphsSpec` and `DistinctKeysCount`. |
| `Supergraph.LastAddress` | packages/gateway/src/apollo-router/supergraph-compose.ts:32-40 | Reference definition: a name is absent iff no target carries it. Otherwise the address is that of the last target with the name. |
| `Supergraph.SubgraphsSpec` | packages/gateway/src/apollo-router/supergraph-compose.ts:32-40 | The loop's subgraph keys are exactly the target names, each once. Each maps to `address + '/graphql'` for both the routing and the introspection URL, where the address is the last target's with that name. |
| `Supergraph.DistinctKeysCount` | packages/gateway/src/apollo-router/supergraph-compose.ts:32-40 | With distinct keys, the number of subgraphs equals the number of keys. |
| `Supergraph.BuildConfig` | packages/gateway/src/apollo-router/supergraph-compose.ts:25-40 | `federation_version` is `=2.3.1`. There is one subgraph per distinct target name, and later duplicates overwrite earlier ones. Every subgraph points at `<last address>/graphql`. |
| `Supergraph.CopyIfChanged` | packages/gateway/src/apollo-router/supergraph-compose.ts:45-50 | The target ends up holding the content. It is copied iff it was missing or differed, nothing is written otherwise, and no other file changes. |
| `Supergraph.StageAndCopy` | packages/gateway/src/apollo-router/supergraph-compose.ts:41-50 | The content is written to `<target>.next`. The target then holds it, and is copied iff it was missing or differed. |
| `Supergraph.StageAgainKeepsFiles` | packages/gateway/src/apollo-router/supergraph-compose.ts:45-50 | Staging the same content a second time copies nothing and changes no file. |
| `Supergraph.CreateSupergraphConfig` | packages/gateway/src/apollo-router/supergraph-compose.ts:25-51 | Both the `.next` file and the active configuration hold the rendered configuration. The active one is replaced iff it was missing or different. Every other file is untouched. |
| `Supergraph.CreateConfigIdempotent` | packages/gateway/src/apollo-router/supergraph-compose.ts:25-51 | Running twice with the same targets does not copy the second time and leaves every file as the first run left it. |
| `Supergraph.ComposeOnce` | packages/gateway/src/apollo-router/supergraph-compose.ts:53-88 | In production an existing schema means nothing is done. Without one, the composer's output is written and the process exits, or the failure propagates. Outside production the schema is replaced iff it was missing or its content differs. A failure changes nothing, and no file other than the schema pair is touched. |
| `Supergraph.RecomposeUnchangedOutput` | packages/gateway/src/apollo-router/supergraph-compose.ts:71-86 | Outside production, recomposing with the same output replaces nothing and changes no file. |
| `Supergraph.SupergraphCompose` | packages/gateway/src/apollo-router/supergraph-compose.ts:90-104 | The whole run fails only when the first composition fails. A failing poll tick is caught. |
| `Supergraph.Poll` | packages/gateway/src/apollo-router/supergraph-compose.ts:95-103 | The poll ticks touch no file outside the schema and its `.next`. After a last tick whose composition succeeds, the schema holds that tick's output. |
| `Supergraph.PollKeepsConfig` | packages/gateway/src/apollo-router/supergraph-compose.ts:95-103 | Poll ticks only recompose: the configuration and its `.next` are never touched. |
| `Supergraph.PollStableOutput` | packages/gateway/src/apollo-router/supergraph-compose.ts:95-103 | Ticks whose output equals the active schema leave every file unchanged. |
| `Supergraph.ComposeKeepsInitialConfig` | packages/gateway/src/apollo-router/supergraph-compose.ts:90-104 | Whatever the ticks do, the active configuration is the rendering of the initial targets. |
| `Tags.RenderTags` | packages/erxes-ui/src/components/Tags.tsx:27-50 | As written: the class name follows the count, the shown tags are a prefix and all of them without a limit. A stray `0` renders iff the limit is `0`, and a `+n` label iff a non-zero limit is set and exceeded. |
| `Tags.RenderTagsIntended` | packages/erxes-ui/src/components/Tags.tsx:27-50 | With the corrected guard: the same list, but no stray `0`, and a label iff a positive limit is exceeded. |
| `Tags.SliceEnd` | packages/erxes-ui/src/components/Tags.tsx:32 | `slice(0, end)` keeps `min(end, length)` items for a non-negative end. A negative end counts from the back, and the count is at least 0. |
| `Tags.ClassName` | packages/erxes-ui/src/components/Tags.tsx:9-11 | The class name is `tags` iff there is at least one tag, and empty otherwise. |
| `Tags.Shown` | packages/erxes-ui/src/components/Tags.tsx:32 | The rendered tags are a prefix of the tags. All of them render when the limit is absent or 0, and the first `min(limit, length)` render for a positive limit. |
| `Tags.Overflow` | packages/erxes-ui/src/components/Tags.tsx:43-46 | As written: a stray `0` renders iff the limit is `0`. A `+n` label renders iff a non-zero limit is set and `length > limit`, and its text is `+` followed by `length - limit`. |
| `Tags.IntendedOverflow` | packages/erxes-ui/src/components/Tags.tsx:43-46 | The corrected guard never renders a stray `0`. A label renders iff the limit is positive and `length > limit`, with text `+` followed by `length - limit`. |
| `Tags.AnnouncedCount` | packages/erxes-ui/src/components/Tags.tsx:45 | A `+n` label announces `n`. |
| `Tags.ShownPlusAnnouncedIsTotal` | packages/erxes-ui/src/components/Tags.tsx:32-46 | With a positive limit, the number of rendered tags plus the badge's count equals the number of tags. |
| `Tags.NoLimitShowsAll` | packages/erxes-ui/src/components/Tags.tsx:32-46 | With no `limit` prop, every tag renders and nothing follows them. |
| `Tags.ZeroLimitShowsStrayZero` | packages/erxes-ui/src/components/Tags.tsx:32-46 | As written, a `limit` of `0` renders every tag followed by the text `0`. |
| `Tags.IntendedAccountsForEveryTag` | packages/erxes-ui/src/components/Tags.tsx:32-46 | With the corrected guard and any non-negative or absent limit, the shown tags plus the announced count are all the tags. An absent or `0` limit shows every tag and nothing after them. |
| `KnowledgeRow.Collapse` | packages/plugin-knowledgebase-ui/src/components/knowledge/KnowledgeRow.tsx:38-55 | Without `click`, storage is not written. With it, the id's membership flips and every other id keeps its membership. A new id is appended once, and a removal shortens the list. The row is open iff it is current or listed. |
| `KnowledgeRow.FilterDropsOne` | packages/plugin-knowledgebase-ui/src/components/knowledge/KnowledgeRow.tsx:47-48 | Filtering out a listed id makes the list strictly shorter. |
| `KnowledgeRow.ToggleTwiceRestoresMembership` | packages/plugin-knowledgebase-ui/src/components/knowledge/KnowledgeRow.tsx:46-51 | Two clicks on the same row restore which ids are open. |
| `KnowledgeRow.Initial` | packages/plugin-knowledgebase-ui/src/components/knowledge/KnowledgeRow.tsx:58-62 | The initial `detailed` flag is true iff the topic is listed. Storage is only read, so none is returned. |
| `KnowledgeRow.Toggle` | packages/plugin-knowledgebase-ui/src/components/knowledge/KnowledgeRow.tsx:64-68 | A toggle opens the row iff its topic was not listed, and afterwards the row is open iff the written storage lists it. |
| `KnowledgeRow.ReceiveProps` | packages/plugin-knowledgebase-ui/src/components/knowledge/KnowledgeRow.tsx:70-76 | A new current category among the topic's categories opens the row. Any other category keeps the flag. Storage is never written, so none is returned. |
| `KnowledgeRow.ToggleAgreesWithStorage` | packages/plugin-knowledgebase-ui/src/components/knowledge/KnowledgeRow.tsx:58-68 | After a toggle, the row's flag is the flag a fresh row would read from the written storage. |
| `KnowledgeRow.ToggleLeavesOtherRows` | packages/plugin-knowledgebase-ui/src/components/knowledge/KnowledgeRow.tsx:36-68 | All rows share one storage key. A click on one row does not change what a freshly mounted row for another topic reads. |
| `SelectFields.InitialFields` | packages/ui-automations/src/components/forms/actions/placeHolder/SelectFields.tsx:47-57 | The initial fields are exactly the attributions whose name is a key of the config. |
| `SelectFields.InitialFieldsKeepOrder` | packages/ui-automations/src/components/forms/actions/placeHolder/SelectFields.tsx:50-52 | The initial selection keeps the attributions' order: selecting from a concatenation concatenates the selections. |
| `SelectFields.RemoveField` | packages/ui-automations/src/components/forms/actions/placeHolder/SelectFields.tsx:67-71 | Every field with that `_id` is dropped and the others stay. `config[name]` becomes undefined, and other keys are unchanged. |
| `SelectFields.RemoveFieldKeepsOrder` | packages/ui-automations/src/components/forms/actions/placeHolder/SelectFields.tsx:67-71 | Removal keeps the order of the remaining fields: removing from a concatenation concatenates the removals. |
| `SelectFields.ClickField` | packages/ui-automations/src/components/forms/actions/placeHolder/SelectFields.tsx:106-115 | The item is appended after the existing fields. The config is passed on iff `withDefaultValue` holds, and then with `config[name] = '{{ name }}'`. |
| `SelectFields.Available` | packages/ui-automations/src/components/forms/actions/placeHolder/SelectFields.tsx:149-153 | The offer is exactly the attributions whose `_id` is not selected. |
| `SelectFields.AvailableKeepsOrder` | packages/ui-automations/src/components/forms/actions/placeHolder/SelectFields.tsx:149-153 | The offer keeps the attributions' order: the offer from a concatenation is the concatenation of the offers. |
| `SelectFields.PickedItemLeavesOffer` | packages/ui-automations/src/components/forms/actions/placeHolder/SelectFields.tsx:106-153 | After a pick, an attribution is selected iff it was before or it is the picked item, so the picked item leaves the offer. |
| `SelectFields.RemoveUndoesPick` | packages/ui-automations/src/components/forms/actions/placeHolder/SelectFields.tsx:67-115 | Removing a field that was just picked, and was not selected before, restores the field list. |
| `SelectFields.RemovedFieldStillKeyed` | packages/ui-automations/src/components/forms/actions/placeHolder/SelectFields.tsx:47-71 | A removed field's name stays a config key, with an undefined value, so the next mount selects it again. |
| `BoardActionBar.Remember` | src/modules/boards/containers/MainActionBar.tsx:139-148 | Storing the ids makes them this type's defaults, and no other type's entries change. |
| `BoardActionBar.Forget` | src/modules/boards/containers/MainActionBar.tsx:198-209 | Deleting removes only this type's defaults. |
| `BoardActionBar.FindPipeline` | src/modules/boards/containers/MainActionBar.tsx:215-218 | `find` gives nothing iff no pipeline has the id. Otherwise it gives the first pipeline that has it. |
| `BoardActionBar.CurrentPipeline` | src/modules/boards/containers/MainActionBar.tsx:215-218 | With a `pipelineId` the current pipeline is the matching one, possibly none. Otherwise it is the first pipeline, and none when the board has none. |
| `BoardActionBar.ComponentFor` | src/modules/boards/containers/MainActionBar.tsx:62-68 | `deal` selects `DealMainActionBar` and `ticket` selects `FundamentalMainActionBar`. No other type selects a component. |
| `BoardActionBar.Persisted` | src/modules/boards/containers/MainActionBar.tsx:139-148 | When both ids in the URL are truthy, they become this type's stored board and pipeline. Otherwise the store is unchanged, and other types never change. |
| `BoardActionBar.Render` | src/modules/boards/containers/MainActionBar.tsx:116-245 | While boards load, only the header renders and nothing is stored. Other types' defaults are never touched. Both ids in the URL are stored before any spinner. A spinner shows iff the query that runs, detail with a board id and last-board without one, is loading. Without a board id a stored default redirects first, and only then a last board with pipelines, to its first pipeline. An unknown board id deletes this type's defaults and reloads `/<type>/board`. Nothing renders iff there is no board id, the last-board query has loaded, no stored board is truthy, and there is no last board with pipelines. The bar shows the loaded board and its current pipeline, with the type's component. For a type without a component the render is the invalid element React rejects, exactly when the bar would otherwise show. |
| `BoardActionBar.RememberedDefaultsRedirect` | src/modules/boards/containers/MainActionBar.tsx:139-176 | Ids stored on one visit redirect the next visit without ids to the same board and pipeline. |
| `BoardActionBar.ForgottenBoardNotRevisited` | src/modules/boards/containers/MainActionBar.tsx:180-209 | After an unknown board id, the next visit without ids goes to the last board, not to the forgotten one. |
| `BoardActionBar.IsFiltered` | src/modules/boards/containers/MainActionBar.tsx:100-110 | True iff some URL parameter is one of the nine filter parameters: four id lists and five date filters. |
| `BoardActionBar.ClearFilter` | src/modules/boards/containers/MainActionBar.tsx:112-114 | Every filter parameter leaves the URL, every other parameter stays with its value, and nothing is added. |
| `BoardActionBar.FirstDateFilter` | src/modules/boards/containers/MainActionBar.tsx:80-87 | The loop finds a date filter iff one is present. What it finds is a present date filter, and it precedes every other present one in the order the parsed query lists them. |
| `BoardActionBar.FirstIn` | src/modules/boards/containers/MainActionBar.tsx:80-87 | The first key of an order that is present: none iff no key of the order is present, and otherwise a present key with no present key before it. |
| `BoardActionBar.DateFiltersSorted` | src/modules/boards/containers/MainActionBar.tsx:80-87 | The five date filter names, in the order used, are distinct and ascending in code-unit order, the order in which `query-string` lists parsed keys. |
| `BoardActionBar.OnDateFilterSelect` | src/modules/boards/containers/MainActionBar.tsx:75-90 | The selected filter is set to the value. The first present date filter, when it is not the selected one, is removed. Every other parameter stays with its value, and nothing else is added. With no date filter present only the new one is set. |
| `BoardActionBar.DateFilterStaysSingle` | src/modules/boards/containers/MainActionBar.tsx:75-90 | With at most one date filter before, exactly the selected date filter is present afterwards. |
| `DealActionBar.Blank` | src/modules/deals/containers/MainActionBar.tsx:126-134 | The `deal` defaults become `''`, and other types are unchanged. |
| `DealActionBar.Render` | src/modules/deals/containers/MainActionBar.tsx:47-159 | While boards load, only the header renders. Other types' defaults are untouched. An unknown board id blanks the `deal` defaults and reloads `/deal/board`. Nothing renders iff there is no board id, the last-board query has loaded, the stored `deal` board is not truthy, and there is no last board with pipelines. The bar shows iff a board id is in the URL and its board has loaded, and it is always the deals' own action bar. |
| `DealActionBar.RenderSeesOnlyTruthyDefaults` | src/modules/boards/containers/MainActionBar.tsx:164-176 | A render reads the stored defaults only through the truthiness of the type's board entry, and through the entries themselves when that is truthy. |
| `DealActionBar.AgreesWithBoardsContainer` | src/modules/deals/containers/MainActionBar.tsx:47-159 | The deals container renders what the boards container renders for type `deal`, apart from the bar component. Its stored defaults cannot be told apart from the boards container's ones. |
| `DealActionBar.BlankingEquivalentToDeleting` | src/modules/deals/containers/MainActionBar.tsx:126-137 | After an unknown board id, blanking the defaults and deleting them lead to the same next render. |

## Left out

- The RPC transport is not modelled: queues, correlation ids, reply timeouts and concurrent in-flight calls. It lives in the `@erxes/api-utils` message broker, which is not part of this model. `sendRPCMessage` is left out for the same reason.
- The worker functions, `receiveImportRemove`, `receiveImportCreate` and `importFromWebhook`, are parameters: each returns a value or throws a message. A throw of something that is not an `Error`, which has no `message`, is not modelled.
- The `getConfigs` database read and its memory cache are replaced by a configs map passed in. Config values are modelled as strings only.
- In `checkFile`, the file read and the magic-number sniffing become the `detected` parameter, `None` when the type is unknown. The thrown `Invalid file` becomes a `Failure`.
- `getEnv` is not part of this model. It is taken to return the variable when set and non-empty, else the default when one is given, else `""`.
- In `frontendEnv` the cookies are the list of `Object.keys` pairs in order. The choice between `req` and `requestInfo` is left out, and so is `Object.keys` listing integer-like keys first.
- Lookups by a name that is a property of `Object.prototype` are not modelled. `defaultMappings[name]` in `getSubServiceDomain` and `envs[name]` in `frontendEnv` read plain objects, so a name such as `constructor` or `toString` yields an inherited function in the source, where the model yields nothing. Likewise a cookie `REACT_APP___proto__` is not stored under `__proto__` in the source, but the model finds it.
- `configReplacer` takes the date as a parameter instead of reading the clock. Years, months and days are naturals.
- BoardNumber.NumberCalculator: `num` is modelled as absent, a string or a natural number. `parseInt` reads only leading ASCII digits: leading whitespace, signs, and numbers whose `toString` uses exponent notation (`1e21` and up) are not modelled. The absent `num` is the error path rather than a precondition. Numbers are unbounded naturals, whereas JavaScript numbers are doubles: from 2^53 on, `parseInt(num) + 1` rounds (`parseInt("9007199254740993") + 1` is `9007199254740992`), so the round trip to `parseInt(num) + 1` holds in the source only below 2^53.
- In the supergraph code, the `rover` runs are given as their outputs, `None` for a failed run. `yaml.stringify` is an opaque `render` function. `process.exit` becomes the `Exited` outcome. The `setInterval` timing becomes a sequence of ticks, and the console logging is dropped.
- `isSameFile` is not part of this model. It is taken to compare file contents. The two artifact paths are parameters, because the paths module is not part of this model.
- Supergraph.SupergraphCompose: its contract states only the failure case. The files it produces are stated by `ComposeKeepsInitialConfig`, `PollKeepsConfig` and `PollStableOutput`.
- Supergraph.Put: the key order it states is the one JavaScript gives string keys that are not integer-like. `Object.keys` lists integer-like keys (such as `"1"`) first, in ascending numeric order; that ordering is not modelled. It affects only the order of the rendered `subgraphs`, not their content.
- Strings are sequences of Unicode scalar values, whereas JavaScript counts UTF-16 code units. Lengths differ outside the Basic Multilingual Plane; every pattern and digit string used here is ASCII.
- Tags: rendering, colours and the random React keys are left out. A fractional `limit` is not modelled; a negative one is, following `slice`'s count-from-the-back rule.
- `localStorage` and `JSON.parse` in KnowledgeRow are the stored `Option` list. A stored value that is not a list is not modelled.
- In SelectFields, the regular-expression search (lines 123-126) depends on `RegExp` semantics applied to user input, so it is not modelled. The item `callback`, `hideContent` and the markup are left out.
- In the action bar containers, several inputs are passed in as values rather than computed:
  - the URL query, as parsed by `query-string`, with every parameter a string;
  - the stored defaults, as read by `getDefaultBoardAndPipelines`;
  - the Apollo query states.
- `routerUtils` is not part of this model. Its `setParams` and `replaceParam` are taken to merge keys into the query, and `removeParams` to delete keys. The `Redirect` view carries the new `id` and `pipelineId`.
- `query-string` sorts the keys it parses, so `onDateFilterSelect` drops the date filter whose key is least in code-unit order.
- The products query, `onSearch`, `onSelect`, `onClear` and the component props other than the board, the pipeline and the component are left out.
- Files that only present things are not modelled: styles, routes, chat, calendar, sidebar and resolver forwarding. The remaining utilities in `utils.ts` perform I/O and are left out too: email, S3/GCS/local files, CSV, Firebase, xlsx, cookie options and the premium check.

## Findings

| source | as written | input that shows it | evidently intended | confidence | as-written member | corrected member |
|---|---|---|---|---|---|---|
| packages/erxes-ui/src/components/Tags.tsx:43 | the guard `limit && length - limit > 0 && label` yields `limit` itself when it is `0`, and React renders that number as the text `0` after the tags | `limit = 0` with any tags | no label unless the limit is positive and hides tags: `limit > 0 && length - limit > 0` | medium, not executed | `Tags.ZeroLimitShowsStrayZero` | `Tags.IntendedAccountsForEveryTag` |
