# Log-level parsing and environment selection of the PME automation console

The console is a thin web front end over a serverless-function configuration
backend. Two pieces of it are pure, sequential logic, and this project models
both completely:

- **Log-line level extraction** (`src/components/LogItem.tsx`). A log message
  is split on the space character. When it has more than two tokens and the
  third token is exactly `INFO`, `ERROR`, `WARN` or `DEBUG`, that token is the
  level and the displayed message is the tokens after it, joined by spaces.
  Otherwise the level is `INFO` and the message is shown unchanged. A level is
  then mapped to a colour class.
- **Branch-to-environment selection** (`env.config.js`). The branch is
  `AMPLIFY_GIT_BRANCH || BRANCH || 'main'` with JavaScript truthiness (an unset
  or empty variable falls through). The branches `main`, `staging` and
  `develop` select themselves and every other branch selects `develop`. The
  selected environment's public variables are read from a constant table,
  with a fallback to the `develop` entry.

Modules:

- `Wrappers` (`wrappers.dfy`): `Option`, used for unset variables, absent
  characters and missed lookups.
- `Text` (`text.dfy`): `Split` and `Join` with the semantics of JavaScript's
  `split(' ')` and `join(' ')`. Empty tokens are kept, so `""` splits to
  `[""]`. Also the reference predicate `IsSuffixAfterNth`: the text after the
  n-th separator, defined by counting separators in a prefix.
- `LogItem` (`log_item.dfy`): `ParseLog` and `LevelColor`.
- `EnvConfig` (`env_config.dfy`): the environment table, `SelectBranch`,
  `GetEnvironment` and `GetEnvironmentVars`. The two branch variables come
  from the process environment; they are parameters of type
  `Option<string>`, with `None` for an unset variable.

The regular expression `/^(INFO|ERROR|WARN|DEBUG)$/` has no multiline flag.
In JavaScript, `$` then matches only at the end of the input. So the match is
whole-token, case-sensitive equality with one of the four names
(`IsLevelName`).

One edge case is worth spelling out. A message with exactly three tokens whose
third token is a level (`"a b WARN"`) has no third space. Its displayed message
is the empty string. The "text after the third space" property is therefore
stated for four or more tokens, and the three-token case is stated separately.

## Model

| member | source | states |
|---|---|---|
| Text.FirstIndex | src/components/LogItem.tsx:12 | the position found holds the separator and no earlier position does; absence means the separator does not occur |
| Text.Split | src/components/LogItem.tsx:12 | splitting keeps empty tokens: there is one more token than separators in the string, and no token contains the separator |
| Text.JoinCountsSeparators | src/components/LogItem.tsx:20 | contract of `Join` (`parts.slice(3).join(' ')`), with the round trips below: tokens free of the separator are joined with exactly one separator between neighbours: one fewer separators than tokens |
| Text.JoinSplit | src/components/LogItem.tsx:12-20 | joining the tokens of a split with the same separator gives back the original string |
| Text.SplitJoin | src/components/LogItem.tsx:12-20 | splitting a join of a non-empty token list, where no token holds the separator, gives back the token list |
| Text.JoinDropIsSuffixAfterNth | src/components/LogItem.tsx:20 | the tokens from index k on (k at least 1, fewer than the token count), joined, are exactly the text after the k-th separator of the original string |
| Text.SuffixAfterNthUnique | src/components/LogItem.tsx:20 | for n at least 1 there is only one text after the n-th separator, so the characterisation above fixes the displayed message |
| Text.JoinDropShorter | src/components/LogItem.tsx:20 | dropping leading tokens, at least one of them non-empty, makes the joined string strictly shorter |
| LogItem.IsLevelName | src/components/LogItem.tsx:18 | a matching token is one of the four names, an upper-case word of four or five letters with no space, so lower-case or punctuated spellings never match |
| LogItem.ParseLog | src/components/LogItem.tsx:14-21 | the level is always one of INFO, ERROR, WARN, DEBUG, and the message is either the original or strictly shorter |
| LogItem.ParseLogShortMessage | src/components/LogItem.tsx:14-18 | a message with fewer than two spaces (at most two tokens) yields level INFO and the message unchanged |
| LogItem.ParseLogUnrecognisedToken | src/components/LogItem.tsx:18 | when the third token is not exactly a level name (so "info" or "INFO:" do not match), the level is INFO and the message is unchanged |
| LogItem.ParseLogRecognisesIff | src/components/LogItem.tsx:18-20 | the message is changed if and only if there is a third token that is a level name, and then the level is that token |
| LogItem.ParseLogMessageAfterThirdSpace | src/components/LogItem.tsx:19-20 | for a recognised line the displayed message is exactly the text after the third space; with only three tokens it is empty |
| LogItem.ParseLogReassembles | src/components/LogItem.tsx:12-20 | a recognised line of four or more tokens equals its first two tokens, the level and the displayed message separated by single spaces |
| LogItem.LevelColor | src/components/LogItem.tsx:23-30 | ERROR gives red, WARN gives yellow, INFO gives blue, and every other string (DEBUG included) gives gray |
| LogItem.LevelColorDistinguishes | src/components/LogItem.tsx:23-30 | equal non-gray colours mean equal levels, and among parsed levels only DEBUG is shown gray |
| EnvConfig.SelectBranch | env.config.js:33 | the branch is never empty; AMPLIFY_GIT_BRANCH wins when set and non-empty, then BRANCH, then "main" |
| EnvConfig.GetEnvironment | env.config.js:32-41 | the environment is always a key of the table; a branch that is a key selects itself, and any result other than develop is the branch itself |
| EnvConfig.FeatureBranchSelectsDevelop | env.config.js:39-40 | every branch other than main, staging and develop selects develop |
| EnvConfig.GetEnvironmentIdempotent | env.config.js:35-37 | feeding the selected environment back in as either branch variable selects the same environment |
| EnvConfig.Lookup | env.config.js:48 | a property read on the table yields a value exactly when the key is present, and then the table's value |
| EnvConfig.GetEnvironmentVars | env.config.js:46-53 | the variables are the table entry of the selected environment, with exactly the three public variable names |
| EnvConfig.FallbackUnreachable | env.config.js:48 | the lookup of the selected environment in the table always succeeds, so the develop fallback never fires |
| EnvConfig.TableShape | env.config.js:6-27 | the table has the keys main, staging, develop; each entry defines exactly NEXT_PUBLIC_API_URL, NEXT_PUBLIC_ENVIRONMENT, NEXT_PUBLIC_APP_URL; the environment names are production, staging, development |

## Left out

- Rendering of the log line and of every page, layout, sidebar and loader component: view markup only.
- Timestamp formatting with `toLocaleString` / `toLocaleDateString`: locale- and time-zone-dependent host formatting.
- The HTTP calls of `src/lib/api.ts`: network I/O with a status check and no logic of their own.
- The gateway-envelope unwrapping and the folder-listing-to-batch transformation: `fetchImageBatches`, `downloadImageBatch` and `getBatchPreview` are imported by `src/app/renouvellement-annonces/page.tsx`, but their definitions are not among the source files of this repository.
- The preview cache of the image-batch page: asynchronous UI state interleaved with a network call.
- The mock data of `src/lib/lambdas.mock.ts` and `src/lib/s3.mock.ts`: constants with no operations.
- `next.config.ts`: build tooling configuration.
- Reading `process.env`: the two branch variables are parameters.
- The object spread `{...envVars}` in `getEnvironmentVars`: a fresh copy with the same contents; as values it is the entry itself.
- EnvConfig.Environments: the exported `environments` object is mutable in JavaScript; the model treats it as a constant, so the unreachable fallback holds only while no importer edits the table.
- Text.Split: JavaScript strings are sequences of UTF-16 code units, the model's strings are sequences of Unicode scalar values; splitting on a space is unaffected, but lone surrogates cannot be inputs and lengths differ for characters outside the Basic Multilingual Plane.
