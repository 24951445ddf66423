# Link types, password recovery and constant credentials

A Dafny model of three small parts of a Solid community server:

- **LinkTypeParser.** It reads the `link` header of an HTTP request. The header is one string or several lines.
  - Each line is split on commas into entries, and each entry is trimmed.
  - An entry is kept when its target, before the first `;`, is a URI between angle brackets and one of its `;`-parameters is `rel` with the value `type`. The value may be quoted or not.
  - Each kept URI is added, in header order, as an `rdf:type` value on a `RepresentationMetadata` object.
  - The metadata object is a list of (predicate, value) pairs. `get` gives the first value of a predicate, `getAll` all of them in insertion order, and `quads` every pair.
- **ForgotPasswordHandler.** It handles the "forgot password" form.
  - The form must hold exactly one `email` value; otherwise the error is `Email required`.
  - With a valid email, the account store is asked for a recovery record.
  - When the store produces a record, one email is sent. Its subject is fixed, its text holds a reset link, and its HTML is the rendered template. The link joins the base URL, the identity-provider path, `resetpassword` and the record id, with exactly one `/` at each of the three seams, whatever slashes the parts carry there.
  - Whatever the store answered, the caller receives the same response naming the address. The response therefore does not reveal whether an account exists.
- **UnsecureConstantCredentialsExtractor.** It is configured with a WebID string or full credentials. A string becomes credentials holding only that WebID. `handle` answers every request with the configured credentials.

Files:

- `wrappers.dfy`: `Option` and `Result`.
- `seqs.dfy`: a generic flat-map and its algebra.
- `text.dfy`: split, join, trim and quote stripping, with their laws.
- `metadata.dfy`: the metadata multimap, as functions and as the class `RepresentationMetadata` that parsers update in place.
- `link_type_parser.dfy`: the link grammar, the `Parse` and `ParseLink` methods, and the grammar's laws.
- `link_type_examples.dfy`: the unit scenarios of the parser, stated for every URI of the same shape.
- `forgot_password.dfy`: validation, link building, the handler as functions, and the handler as a class over a store and a sender.
- `credentials.dfy`: the extractor.

The parser and the handler are modelled from the behaviour their unit tests pin down; their implementation files are not part of this model. Where a test leaves a detail open, the model chooses the plain reading, and "## Left out" names each choice.

## Model

| member | source | states |
|---|---|---|
| `Credentials.New` | src/authentication/UnsecureConstantCredentialsExtractor.ts:13-16 | A string agent becomes credentials with only that WebID; full credentials are kept unchanged |
| `Credentials.WebIdOnly` | src/authentication/UnsecureConstantCredentialsExtractor.ts:15 | The `{webId: s}` object has the WebID `s` and no client id or issuer |
| `Credentials.UnsecureConstantCredentialsExtractor.Handle` | src/authentication/UnsecureConstantCredentialsExtractor.ts:18-21 | `handle` returns the stored agent and has no failure case |
| `Credentials.StringClaimsWebId` | src/authentication/UnsecureConstantCredentialsExtractor.ts:15 | An extractor built from string `s` answers with WebID `s`, no client id and no issuer |
| `Credentials.StringSameAsWebIdOnly` | src/authentication/UnsecureConstantCredentialsExtractor.ts:15 | Building from string `s` is the same as building from `{webId: s}` |
| `Credentials.FullRoundTrip` | src/authentication/UnsecureConstantCredentialsExtractor.ts:13-20 | Full credentials given to the constructor come back from `handle` unchanged |
| `Credentials.RequestIndependent` | src/authentication/UnsecureConstantCredentialsExtractor.ts:18 | Any two requests get the same answer |
| `LinkTypeParser.LinkLines` | test/unit/ldp/http/metadata/LinkTypeParser.test.ts:34-35 | No `link` header gives no lines; a string gives one line; an array gives its lines in order |
| `LinkTypeParser.Parse` | test/unit/ldp/http/metadata/LinkTypeParser.test.ts:34-39 | `parse` always completes and leaves the metadata holding its old quads with the declared types of every line added in header order |
| `LinkTypeParser.ParseLink` | test/unit/ldp/http/metadata/LinkTypeParser.test.ts:42-47 | One line adds the declared types of its comma-separated entries, in entry order |
| `LinkTypeParser.EntryAccepted` | test/unit/ldp/http/metadata/LinkTypeParser.test.ts:27-31 | An entry `target;params` declares `uri` if and only if the trimmed target is `<uri>` and a parameter is `rel=type` |
| `LinkTypeParser.ParseEntry` | test/unit/ldp/http/metadata/LinkTypeParser.test.ts:27-31 | The entry grammar; what it accepts is stated by `EntryAccepted` and `EntryWithParams`: a URI is declared exactly when the trimmed target is that URI in angle brackets and some parameter is `rel=type` |
| `LinkTypeParser.EntryWithParams` | test/unit/ldp/http/metadata/LinkTypeParser.test.ts:34-35 | `target;p1;…;pn` declares `uri` if and only if the trimmed target is `<uri>` and some `pi` is `rel=type` |
| `LinkTypeParser.EntryUriHasNoSemicolon` | test/unit/ldp/http/metadata/LinkTypeParser.test.ts:28 | A declared URI never contains `;` |
| `LinkTypeParser.EntryType` | test/unit/ldp/http/metadata/LinkTypeParser.test.ts:43 | One entry declares at most one type |
| `LinkTypeParser.EntryTypes` | test/unit/ldp/http/metadata/LinkTypeParser.test.ts:42-47 | The entries of a line declare their types in entry order, at most one per entry |
| `LinkTypeParser.LineTypes` | test/unit/ldp/http/metadata/LinkTypeParser.test.ts:42-47 | A line declares at most one type per comma-separated entry; `LineOfEntries` and `TwoEntryLine` state which, in order |
| `LinkTypeParser.HeaderTypes` | test/unit/ldp/http/metadata/LinkTypeParser.test.ts:34-39 | The types of all lines, line after line; `OneTypePerLine` and `SingleLineHeader` state them for the test headers |
| `LinkTypeParser.TypeRelParts` | test/unit/ldp/http/metadata/LinkTypeParser.test.ts:28 | A parameter `name=value` is `rel=type` if and only if its trimmed name is `rel` and its trimmed, unquoted value is `type` |
| `LinkTypeParser.IsTypeRel` | test/unit/ldp/http/metadata/LinkTypeParser.test.ts:28 | A parameter is `rel=type`; `TypeRelParts` states this as: it has a `=`, its trimmed name is `rel`, its trimmed and unquoted value is `type` |
| `LinkTypeParser.HasTypeRel` | test/unit/ldp/http/metadata/LinkTypeParser.test.ts:28 | Some `;`-separated parameter is `rel=type`; `HasTypeRelCons` and `HasTypeRelSplit` state this for every parameter list |
| `LinkTypeParser.QuotesIgnored` | test/unit/ldp/http/metadata/LinkTypeParser.test.ts:35 | `name="v"` and `name=v` are judged the same |
| `LinkTypeParser.RelParam` | test/unit/ldp/http/metadata/LinkTypeParser.test.ts:57 | A lone `rel` parameter, quoted or not, is `rel=type` exactly when its value is `type` |
| `LinkTypeParser.SingleParam` | test/unit/ldp/http/metadata/LinkTypeParser.test.ts:28 | A parameter list without `;` is judged as its one parameter |
| `LinkTypeParser.HasTypeRelCons` | test/unit/ldp/http/metadata/LinkTypeParser.test.ts:28 | A parameter list `p;rest` has `rel=type` if and only if `p` is `rel=type` or `rest` has it |
| `LinkTypeParser.HasTypeRelSplit` | test/unit/ldp/http/metadata/LinkTypeParser.test.ts:28 | A parameter list has `rel=type` if and only if one of its `;`-separated pieces is `rel=type` |
| `LinkTypeParser.EntryParts` | test/unit/ldp/http/metadata/LinkTypeParser.test.ts:28 | An entry splits at its first `;` into the target and the parameter list |
| `LinkTypeParser.UnbracketedIgnored` | test/unit/ldp/http/metadata/LinkTypeParser.test.ts:50-53 | A target not in angle brackets declares nothing, whatever its parameters |
| `LinkTypeParser.NoParamsIgnored` | test/unit/ldp/http/metadata/LinkTypeParser.test.ts:57 | An entry without parameters declares nothing |
| `LinkTypeParser.OtherRelIgnored` | test/unit/ldp/http/metadata/LinkTypeParser.test.ts:56-59 | An entry whose only parameter is `rel` with a value other than `type` declares nothing, quoted or not |
| `LinkTypeParser.TypeLink` | test/unit/ldp/http/metadata/LinkTypeParser.test.ts:35 | The link `<uri>;rel="type"` or `<uri>;rel=type` holds a comma exactly when the URI does |
| `LinkTypeParser.TypeLinkParses` | test/unit/ldp/http/metadata/LinkTypeParser.test.ts:35 | A type link declares exactly its URI, whether the value is quoted or not |
| `LinkTypeParser.PaddedEntry` | test/unit/ldp/http/metadata/LinkTypeParser.test.ts:43 | White space around an entry does not change what it declares |
| `LinkTypeParser.PaddedTypeLink` | test/unit/ldp/http/metadata/LinkTypeParser.test.ts:43 | A type link with white space around it declares exactly its URI |
| `LinkTypeParser.SingleEntryLine` | test/unit/ldp/http/metadata/LinkTypeParser.test.ts:28 | A line without a comma is a single entry |
| `LinkTypeParser.LineFirstEntry` | test/unit/ldp/http/metadata/LinkTypeParser.test.ts:43 | The first comma ends the first entry; its types come before those of the rest of the line |
| `LinkTypeParser.TwoEntryLine` | test/unit/ldp/http/metadata/LinkTypeParser.test.ts:42-47 | A line of two entries declares the first entry's types, then the second's |
| `LinkTypeParser.TwoDeclaringEntries` | test/unit/ldp/http/metadata/LinkTypeParser.test.ts:42-47 | Two comma-joined entries that each declare one URI declare both, first the first |
| `LinkTypeParser.LineOfEntries` | test/unit/ldp/http/metadata/LinkTypeParser.test.ts:42-47 | Entries joined by commas are parsed back as those entries, in order |
| `LinkTypeParser.EveryEntryDeclares` | test/unit/ldp/http/metadata/LinkTypeParser.test.ts:42-47 | When each entry declares one URI, the line declares those URIs in entry order |
| `LinkTypeParser.NoEntryDeclares` | test/unit/ldp/http/metadata/LinkTypeParser.test.ts:56-59 | When no entry declares a type, the line declares none |
| `LinkTypeParser.OneTypePerLine` | test/unit/ldp/http/metadata/LinkTypeParser.test.ts:34-39 | When each line declares one URI, the header declares those URIs in line order |
| `LinkTypeParser.SingleLineHeader` | test/unit/ldp/http/metadata/LinkTypeParser.test.ts:27-31 | A one-line header declares that line's types |
| `LinkTypeParser.NoLinkHeader` | test/unit/ldp/http/metadata/LinkTypeParser.test.ts:22-24 | Without a `link` header no type is declared |
| `LinkTypeParser.ParsedIntoEmpty` | test/unit/ldp/http/metadata/LinkTypeParser.test.ts:34-39 | Into empty metadata, distinct declared types give one `rdf:type` quad each, and `getAll` lists them in header order |
| `LinkTypeExamples.ParsedQuads` | test/unit/ldp/http/metadata/LinkTypeParser.test.ts:24 | Fresh metadata after parsing holds no duplicate and only `rdf:type` quads with declared values |
| `LinkTypeExamples.NoHeaderScenario` | test/unit/ldp/http/metadata/LinkTypeParser.test.ts:22-25 | Without a `link` header, parsing adds no quad |
| `LinkTypeExamples.SingleHeaderScenario` | test/unit/ldp/http/metadata/LinkTypeParser.test.ts:27-32 | `<U>;rel="type"` adds exactly one quad, and `get(rdf:type)` is U |
| `LinkTypeExamples.TypeLinkLine` | test/unit/ldp/http/metadata/LinkTypeParser.test.ts:35 | A lone type link, quoted or not, declares its URI |
| `LinkTypeExamples.TwoLinesTypes` | test/unit/ldp/http/metadata/LinkTypeParser.test.ts:35 | The lines `<A>;rel="type"` and `<B>;rel=type` declare A, then B |
| `LinkTypeExamples.TwoLinesScenario` | test/unit/ldp/http/metadata/LinkTypeParser.test.ts:34-40 | Two lines add two quads, and `getAll(rdf:type)` is A, B in line order |
| `LinkTypeExamples.TwoLinesParsed` | test/unit/ldp/http/metadata/LinkTypeParser.test.ts:34-40 | `parse` of the two lines into a new metadata object leaves two quads, `getAll(rdf:type)` gives A, B and `get(rdf:type)` gives A |
| `LinkTypeExamples.TypeLinkPair` | test/unit/ldp/http/metadata/LinkTypeParser.test.ts:43 | `<A>;rel="type" , <B>;rel=type` declares A, then B |
| `LinkTypeExamples.TrailingPadded` | test/unit/ldp/http/metadata/LinkTypeParser.test.ts:43 | A type link followed by a space declares its URI |
| `LinkTypeExamples.LeadingPadded` | test/unit/ldp/http/metadata/LinkTypeParser.test.ts:43 | A type link after a space declares its URI |
| `LinkTypeExamples.CommaEntriesScenario` | test/unit/ldp/http/metadata/LinkTypeParser.test.ts:42-48 | One line of two padded entries adds two quads, and `getAll(rdf:type)` is A, B in entry order |
| `LinkTypeExamples.UnbracketedScenario` | test/unit/ldp/http/metadata/LinkTypeParser.test.ts:50-54 | `U;rel="type"` without angle brackets adds no quad |
| `LinkTypeExamples.NonTypeScenario` | test/unit/ldp/http/metadata/LinkTypeParser.test.ts:56-60 | `<A>;rel="V" , <B>` with V other than `type` adds no quad |
| `LinkTypeExamples.OtherRelEntry` | test/unit/ldp/http/metadata/LinkTypeParser.test.ts:57 | `<A>;rel="V" ` with V other than `type` declares nothing |
| `LinkTypeExamples.OtherRelLink` | test/unit/ldp/http/metadata/LinkTypeParser.test.ts:57 | `<A>;rel="V"` is trimmed and declares nothing |
| `LinkTypeExamples.TrailingSpaceIgnored` | test/unit/ldp/http/metadata/LinkTypeParser.test.ts:43 | A trailing space does not change what a trimmed entry declares |
| `LinkTypeExamples.NoRelEntry` | test/unit/ldp/http/metadata/LinkTypeParser.test.ts:57 | ` <B>` with no parameters declares nothing |
| `LinkTypeExamples.QuotedSemicolonEntry` | test/unit/ldp/http/metadata/LinkTypeParser.test.ts:27-31 | `<U>; title="x; rel=type; y"` declares U: a `;` inside a quoted value still separates parameters |
| `Metadata.Values` | test/unit/ldp/http/metadata/LinkTypeParser.test.ts:38 | A value is listed for a predicate exactly when that pair is stored |
| `Metadata.First` | test/unit/ldp/http/metadata/LinkTypeParser.test.ts:31 | The first value is absent exactly when there are no values; otherwise it is the head of the value list and is stored |
| `Metadata.Insert` | test/unit/ldp/http/metadata/LinkTypeParser.test.ts:29-30 | After adding, the pair is present, nothing else is new, and no pair is stored twice |
| `Metadata.InsertAll` | test/unit/ldp/http/metadata/LinkTypeParser.test.ts:37-39 | Adding values, in order, adds at most one quad per value and removes none |
| `Metadata.InsertAllExtends` | test/unit/ldp/http/metadata/LinkTypeParser.test.ts:37-39 | The quads already stored keep their places: they are a prefix of the result |
| `Metadata.InsertAllKeepsNoDuplicates` | test/unit/ldp/http/metadata/LinkTypeParser.test.ts:37 | Adding any values never stores a pair twice |
| `Metadata.InsertAllContents` | test/unit/ldp/http/metadata/LinkTypeParser.test.ts:37-39 | After adding, a pair is present if and only if it was before or is one of the added ones |
| `Metadata.InsertAllAppend` | test/unit/ldp/http/metadata/LinkTypeParser.test.ts:34-39 | Adding in two batches is the same as adding in one |
| `Metadata.InsertAllOtherPredicate` | test/unit/ldp/http/metadata/LinkTypeParser.test.ts:38 | Adding values under one predicate leaves the values of every other predicate unchanged |
| `Metadata.ValuesOfSnoc` | test/unit/ldp/http/metadata/LinkTypeParser.test.ts:38 | A pair stored last contributes its value last |
| `Metadata.ValuesOfCons` | test/unit/ldp/http/metadata/LinkTypeParser.test.ts:31 | A pair stored first contributes its value first |
| `Metadata.InsertAllFreshValues` | test/unit/ldp/http/metadata/LinkTypeParser.test.ts:37-39 | Distinct new values are appended in order to the predicate's values, one pair each |
| `Metadata.RepresentationMetadata.constructor` | test/unit/ldp/http/metadata/LinkTypeParser.test.ts:19 | New metadata is empty |
| `Metadata.RepresentationMetadata.Add` | test/unit/ldp/http/metadata/LinkTypeParser.test.ts:29-30 | `add` stores the pair once, at the end, unless it is already stored |
| `Metadata.RepresentationMetadata.Get` | test/unit/ldp/http/metadata/LinkTypeParser.test.ts:31 | `get` is absent exactly when the predicate has no value; otherwise it is the first of `getAll` |
| `Metadata.RepresentationMetadata.GetAll` | test/unit/ldp/http/metadata/LinkTypeParser.test.ts:38 | `getAll` lists exactly the stored values of the predicate |
| `Metadata.RepresentationMetadata.Quads` | test/unit/ldp/http/metadata/LinkTypeParser.test.ts:24 | `quads` holds no pair twice |
| `Text.Split` | test/unit/ldp/http/metadata/LinkTypeParser.test.ts:43 | Splitting gives at least one piece |
| `Text.IndexOf` | test/unit/ldp/http/metadata/LinkTypeParser.test.ts:28 | The position found is within the string and holds the character when it is inside it |
| `Text.IndexOfIsFirst` | test/unit/ldp/http/metadata/LinkTypeParser.test.ts:28 | No earlier position holds the character |
| `Text.IndexOfFirst` | test/unit/ldp/http/metadata/LinkTypeParser.test.ts:43 | In `a + c + b` with no `c` in `a`, the first `c` follows `a` |
| `Text.IndexOfAbsent` | test/unit/ldp/http/metadata/LinkTypeParser.test.ts:57 | A string without the character has no first occurrence |
| `Text.JoinSplit` | test/unit/ldp/http/metadata/LinkTypeParser.test.ts:43 | Joining the pieces of a split gives the string back |
| `Text.SplitJoin` | test/unit/ldp/http/metadata/LinkTypeParser.test.ts:43 | Splitting pieces joined by a separator none of them holds gives the pieces back |
| `Text.SplitWithoutSep` | test/unit/ldp/http/metadata/LinkTypeParser.test.ts:28 | A string without the separator is one piece |
| `Text.SplitAtFirst` | test/unit/ldp/http/metadata/LinkTypeParser.test.ts:43 | The first separator ends the first piece |
| `Text.LeadingSpace` | test/unit/ldp/http/metadata/LinkTypeParser.test.ts:43 | The count covers exactly the leading white space |
| `Text.TrailingSpace` | test/unit/ldp/http/metadata/LinkTypeParser.test.ts:43 | The count covers exactly the trailing white space |
| `Text.Trim` | test/unit/ldp/http/metadata/LinkTypeParser.test.ts:43 | The trimmed string has no white space at either end and is no longer |
| `Text.TrimChars` | test/unit/ldp/http/metadata/LinkTypeParser.test.ts:43 | Trimming only removes characters |
| `Text.TrimPadded` | test/unit/ldp/http/metadata/LinkTypeParser.test.ts:43 | Trimming white space around a trimmed core gives exactly the core |
| `Text.TrimTrimmed` | test/unit/ldp/http/metadata/LinkTypeParser.test.ts:28 | Trimming is the identity on trimmed strings |
| `Text.StripQuotes` | test/unit/ldp/http/metadata/LinkTypeParser.test.ts:35 | A quoted string loses exactly its two quotes; any other string is unchanged |
| `Text.QuotedValue` | test/unit/ldp/http/metadata/LinkTypeParser.test.ts:35 | A trimmed value without quotes reads the same bare and quoted |
| `Text.QuotedSameAsBare` | test/unit/ldp/http/metadata/LinkTypeParser.test.ts:35 | Stripping quotes from `"v"` and from `v` both give `v` |
| `ForgotPassword.ParseEmail` | test/unit/identity/interaction/email-password/handler/ForgotPasswordHandler.test.ts:46-50 | The form is valid if and only if it has exactly one `email` value; that value is the address; the error is `Email required` |
| `ForgotPassword.StripTrailingSlashes` | test/unit/identity/interaction/email-password/handler/ForgotPasswordHandler.test.ts:16 | The base URL without its trailing slashes; `TrailingStripped` states what is cut |
| `ForgotPassword.TrailingStripped` | test/unit/identity/interaction/email-password/handler/ForgotPasswordHandler.test.ts:16 | Stripping leaves a prefix that does not end in `/`, and only slashes are cut off |
| `ForgotPassword.StripLeadingSlashes` | test/unit/identity/interaction/email-password/handler/ForgotPasswordHandler.test.ts:17 | The path without its leading slashes; `LeadingStripped` states what is cut |
| `ForgotPassword.LeadingStripped` | test/unit/identity/interaction/email-password/handler/ForgotPasswordHandler.test.ts:17 | Stripping leaves a suffix that does not start with `/`, and only slashes are cut off |
| `ForgotPassword.StripTrailingOf` | test/unit/identity/interaction/email-password/handler/ForgotPasswordHandler.test.ts:16 | A part not ending in `/` followed by any run of slashes strips back to the part |
| `ForgotPassword.StripLeadingOf` | test/unit/identity/interaction/email-password/handler/ForgotPasswordHandler.test.ts:17 | Any run of slashes followed by a part not starting with `/` strips back to the part |
| `ForgotPassword.JoinUrl` | test/unit/identity/interaction/email-password/handler/ForgotPasswordHandler.test.ts:16-17 | Two parts joined with exactly one `/` between them; `JoinUrlSeam` states this for any slashes at the seam |
| `ForgotPassword.JoinUrlSeam` | test/unit/identity/interaction/email-password/handler/ForgotPasswordHandler.test.ts:16-17 | With any number of slashes on either side of the seam, the join has exactly one `/` there and keeps both parts |
| `ForgotPassword.ResetLink` | test/unit/identity/interaction/email-password/handler/ForgotPasswordHandler.test.ts:67 | The link built seam by seam from base URL, identity-provider path, `resetpassword` and record id; `ResetLinkShape` states its spelling |
| `ForgotPassword.JoinUrlChain` | test/unit/identity/interaction/email-password/handler/ForgotPasswordHandler.test.ts:16-17 | Three clean parts joined in two steps are separated by exactly one `/` each, whatever slashes either seam carried |
| `ForgotPassword.ResetLinkShape` | test/unit/identity/interaction/email-password/handler/ForgotPasswordHandler.test.ts:67 | The link is base, path, `resetpassword` and id with one `/` between each, with any number of slashes written at the base/path seam and before the id |
| `ForgotPassword.ResetLinkScenario` | test/unit/identity/interaction/email-password/handler/ForgotPasswordHandler.test.ts:16-17 | `http://test.com/base/` and `/idp` give `http://test.com/base/idp/resetpassword/<id>`, also when the id is written with leading slashes |
| `ForgotPassword.ResetMail` | test/unit/identity/interaction/email-password/handler/ForgotPasswordHandler.test.ts:64-69 | The mail goes to the address, has the fixed subject, the prefix and link as text, and the rendered template as HTML |
| `ForgotPassword.MailsSent` | test/unit/identity/interaction/email-password/handler/ForgotPasswordHandler.test.ts:57-63 | At most one mail is sent, and one is sent exactly when the form is valid and the store produced a record |
| `ForgotPassword.StoreAnswer` | test/unit/identity/interaction/email-password/handler/ForgotPasswordHandler.test.ts:53-54 | An invalid form never reaches the store; a valid one gets the store's answer for its address |
| `ForgotPassword.Reply` | test/unit/identity/interaction/email-password/handler/ForgotPasswordHandler.test.ts:55-62 | The reply succeeds if and only if the form is valid, names the submitted address, and otherwise fails with `Email required` |
| `ForgotPassword.InvalidSendsNothing` | test/unit/identity/interaction/email-password/handler/ForgotPasswordHandler.test.ts:46-51 | A missing or repeated `email` fails with `Email required` and sends no mail, whatever the store would say |
| `ForgotPassword.StoreFailureSendsNothing` | test/unit/identity/interaction/email-password/handler/ForgotPasswordHandler.test.ts:53-58 | A failing store leads to no mail |
| `ForgotPassword.RecordSendsResetMail` | test/unit/identity/interaction/email-password/handler/ForgotPasswordHandler.test.ts:60-70 | A new record leads to exactly one mail to the address with the fixed subject, the link in the text and the rendered HTML |
| `ForgotPassword.MailScenario` | test/unit/identity/interaction/email-password/handler/ForgotPasswordHandler.test.ts:64-69 | The unit configuration and record id give the expected mail |
| `ForgotPassword.AccountStore.constructor` | test/unit/identity/interaction/email-password/handler/ForgotPasswordHandler.test.ts:25-27 | A new store has its given answers and no requests logged |
| `ForgotPassword.AccountStore.GenerateForgotPasswordRecord` | test/unit/identity/interaction/email-password/handler/ForgotPasswordHandler.test.ts:26 | The store gives its answer for the address and logs the request |
| `ForgotPassword.EmailSender.constructor` | test/unit/identity/interaction/email-password/handler/ForgotPasswordHandler.test.ts:33-35 | A new sender has sent nothing |
| `ForgotPassword.EmailSender.HandleSafe` | test/unit/identity/interaction/email-password/handler/ForgotPasswordHandler.test.ts:34 | Sending appends exactly that mail to the log |
| `ForgotPassword.ForgotPasswordHandler.constructor` | test/unit/identity/interaction/email-password/handler/ForgotPasswordHandler.test.ts:37-43 | The handler keeps its configuration and collaborators |
| `ForgotPassword.ForgotPasswordHandler.Handle` | test/unit/identity/interaction/email-password/handler/ForgotPasswordHandler.test.ts:53-70 | The reply depends on the form alone; the store is asked once, only for a valid form; the sender gets exactly the mails `MailsSent` describes |
| `ForgotPassword.StoreOutcomeHidden` | test/unit/identity/interaction/email-password/handler/ForgotPasswordHandler.test.ts:53-63 | Handlers whose stores fail and succeed give the same reply; only the succeeding one sends mail, one for a valid form |

## Left out

- Logging is not modelled. This covers the audit line of `handle` and the logger factories, which are side output with no contract.
- `async` and promises are not modelled. Every operation is synchronous, and failure is a `Result` value.
- The handler chain and the `CredentialsExtractor` base class are not part of this model.
- RDF terms and quads are pairs of strings. The subject is left implicit because every pair is about the one resource; `rdf:type` is its full IRI.
- HTTP request objects and form-body parsing are not modelled. The parsed form is a map from field name to the list of submitted values, so a form value that is not a string cannot be written; the "non-string email" test is modelled by its two cases, a missing and a repeated field.
- Whether an empty `email` string is accepted is not pinned down by the tests; the model accepts it.
- The account store's persistence and record expiry are not modelled. The store is a fixed function from address to outcome, and a rejected promise becomes `Fail`.
- The template engine is a function from reset link to HTML. The real engine is asynchronous and also receives other data.
- Email transport is not modelled: the sender is a log of the mails handed to it. What `handleSafe` does with its own failures is not visible.
- `LinkTypeParser.ParseEntry`: the parser's implementation file is not part of this model, so the grammar follows what the tests and section 3 of RFC 8288 describe:
  - The target runs up to the first `;`.
  - Parameters are separated by `;` and split at their first `=`.
  - Names and values are trimmed, and one pair of surrounding double quotes is stripped.
  - `rel` and `type` are compared exactly, so upper case does not match.
  - A space-separated list of relation types in one `rel` is not split.
  - Commas inside quoted strings or inside a URI are not treated specially.
  - Every `rel` parameter of an entry is consulted, not only the first as section 3.3 of RFC 8288 requires: `<u>;rel=next;rel=type` declares `u` (`LinkTypeParser.EntryWithParams`).
  - Quoted values lose only their surrounding quotes; backslash escapes inside them are kept, so `rel="t\ype"` is not `type`.
  - Semicolons inside quoted strings are not treated specially either: in `<u>; title="x; rel=type; y"` the piece `rel=type` counts as a parameter, so the entry declares `u` (`LinkTypeExamples.QuotedSemicolonEntry`).
- `ForgotPassword.JoinUrl`: every slash at a seam collapses into one, at all three seams of the reset link including the one before the record id, and an empty part still gets its `/`. The query, fragment and scheme handling of a URL-joining library is not modelled.
- `LinkTypeParser.Parse` adds values through `add`, which stores an identical pair only once. Parsing the same URI twice therefore leaves one quad.
- `Metadata.RepresentationMetadata`: only `add`, `get`, `getAll` and `quads` are modelled; the rest of the metadata API is not part of this model.
- `Text.Trim` treats space and the ASCII control characters tab through carriage return as white space; the wider Unicode white space that JavaScript's `trim` also removes is not modelled.
