# Umbraco.Pylon, modelled in Dafny

Umbraco.Pylon is a set of helpers around the Umbraco CMS and ASP.NET MVC / Web API.
This project models its sequential logic and proves properties of it:

- **Property coercion.** The two `ContentAccessor` classes and the typed getters of
  `DocumentTypeBase` read a node's property and turn it into a string. They then
  coerce it to an integer, a boolean or a date, or split it into a delimited list,
  with a fallback for absent or unparseable values.
- **Lookup guards.** `MediaAccessor` and the two `PublishedContentRepository`
  classes answer null and 0 ids without a lookup. They fail when no lookup or
  helper is configured, and they derive "exists" and "url" from the lookup.
- **Value models.** `Link` covers constructor validation, the text fallback and
  `Target`. `LinkedViewModelBase` covers `HasContent`, the forwarding getters and
  re-initialisation on assignment.
- **`HttpResponseMessageGenerator.For`**, which maps a result, a null or an
  exception to 200, 404 or 500 (RFC 9110, sections 15.3.1, 15.5.5 and 15.6.1).
- **Controller rules.** These are the file-check guard and the empty-content
  fallback of `CurrentTemplate`. They also cover `SetDefaultContext` with its
  derived controller route name, `PartialAsString`, the constructor defaults and
  the explicit-or-fresh `ContentRepo`. The rules are modelled for
  `UmbracoPylonInnerControllerBase`, `PylonController` and
  `UmbracoPylonControllerBase`.
- **Route-test helpers.**
  - `RouteTestingHelper` covers `ShouldMapTo`, the removal of optional route
    parameters, and `RouteInfo`.
  - `WebApiRouteAsserter` covers `GetFullDummyUrl` and the valid/invalid verdicts.
  - `MvcRouteAsserter` covers the sequence of assertions, the route-properties
    loop, the invalid-route message and the outgoing-URL comparison.

Modelling conventions:

- Stateful C# objects are immutable datatypes. An operation that changes state
  returns the new state together with its result (`Step`).
- A null reference is `Option.None`. An exception is `Result.Failure`, carrying
  one of the `Error` constructors.
- Everything the framework or the CMS decides is a parameter: content and media
  trees are maps from id to node, and the view engine, routing, rendering and
  date parsing are functions.
- The assertion framework of the test helpers is modelled as a framework that
  throws on the first failing assertion. `Run` gives the verdict of a sequence of
  assertions.

Some properties are stated in a module rather than in the function they concern.
`DelimitedOf` and `DelimitedStringCollection` hold the split/join round trip.
`Mvc.ControllerRouteName` states that the route name is lower case. The two
copies of `ContentAccessor`, in Umbraco.Pylon and Umbraco.PylonLite, are line for
line the same and share one model. The same holds for the two copies of
`HttpResponseMessageGenerator`. The Umbraco.Pylon copy of the generator declares
the namespace `Umbraco.PylonLite`, which does not affect its behaviour.

## Model

| member | source | states |
|---|---|---|
| Text.RemoveAll | Umbraco.Pylon/UmbracoPylonInnerControllerBase.cs:200-203 | `Replace(pattern, "")` never lengthens the text and keeps only characters of it |
| Text.RemoveAllIsIdentityIff | Umbraco.Pylon/UmbracoPylonInnerControllerBase.cs:200-203 | `Replace(pattern, "")` leaves the text unchanged exactly when the pattern does not occur in it |
| Text.RemoveAllKeepsPrefix | Umbraco.Pylon/UmbracoPylonInnerControllerBase.cs:200-203 | the single left-to-right scan keeps a prefix in which no occurrence starts |
| Delimited.Split | Umbraco.Pylon/ContentAccessor.cs:230 | `Split` always gives at least one piece and no piece holds the delimiter |
| Delimited.JoinSplit | Umbraco.Pylon/ContentAccessor.cs:226-232 | joining the split pieces with the delimiter gives back the original text |
| Delimited.SplitCount | Umbraco.Pylon/ContentAccessor.cs:226-232 | there is one piece more than there are delimiters |
| Delimited.SplitJoin | Umbraco.Pylon/ContentAccessor.cs:226-232 | splitting a join of delimiter-free pieces gives back the pieces |
| Parsing.ParseInt32 | Umbraco.Pylon/ContentAccessor.cs:255 | `int.TryParse` succeeds only with a value in the signed 32-bit range (its full grammar is in the rows below) |
| Parsing.ParseInt32RoundTrip | Umbraco.Pylon/ContentAccessor.cs:255 | every 32-bit integer's decimal rendering parses back to it |
| Parsing.ParseInt32RejectsBlank | Umbraco.Pylon/ContentAccessor.cs:255 | white space alone is not a number |
| Parsing.ParseInt32Reads | Umbraco.Pylon/ContentAccessor.cs:255 | text made of white space, an optional sign, one or more digits and white space parses to the value it denotes, leading zeros included, exactly when that value is in the 32-bit range, and fails otherwise |
| Parsing.ParseInt32Decomposes | Umbraco.Pylon/ContentAccessor.cs:255 | conversely, every text that parses has that shape and parses to the value its sign and digits denote |
| Parsing.ParseInt32RejectsStrayCharacter | Umbraco.Pylon/ContentAccessor.cs:255 | a character other than white space, a sign or a digit anywhere makes the parse fail |
| Parsing.ParseInt32RejectsOverflow | Umbraco.Pylon/ContentAccessor.cs:255 | a magnitude above 2147483648, or 2147483648 itself without a minus sign, does not parse, however it is padded |
| Parsing.ParseInt32SkipsPadding | Umbraco.Pylon/ContentAccessor.cs:255 | `" -007\n"` parses to -7 |
| Parsing.ParseBoolean | Umbraco.Pylon/ContentAccessor.cs:306 | `bool.TryParse` succeeds exactly when the trimmed text equals a boolean's rendering ignoring case, and then yields that boolean; `Parsing.ParseBooleanIff` gives the full characterisation |
| Parsing.ParseBooleanRoundTrip | Umbraco.Pylon/ContentAccessor.cs:306 | both `bool.ToString()` renderings parse back to their value |
| Parsing.ParseBooleanReads | Umbraco.Pylon/ContentAccessor.cs:306 | "true" or "false" in any ASCII case, with only white space and NUL characters around it, parses to its value |
| Parsing.ParseBooleanDecomposes | Umbraco.Pylon/ContentAccessor.cs:306 | conversely, whatever parses is its value's rendering in some case with only white space and NUL characters around it |
| Parsing.ParseBooleanIff | Umbraco.Pylon/ContentAccessor.cs:306 | `bool.TryParse` yields a value exactly on text of that shape for the value |
| PublishedContent.ValueOf | Umbraco.Pylon/ContentAccessor.cs:173-179 | the property value is non-null exactly when there is a node, it has the property, and the value is non-null |
| PublishedContent.StringFormOf | Umbraco.Pylon/ContentAccessor.cs:198-206 | the string form is null in exactly the cases the value is, and is otherwise the value's `ToString()` |
| PublishedContent.DelimitedOf | Umbraco.Pylon/ContentAccessor.cs:226-232 | empty for a null or blank value; otherwise pieces that re-join to the value, one more than its delimiters, none holding the delimiter |
| PublishedContent.NumericOf | Umbraco.Pylon/ContentAccessor.cs:252-257 | the parsed 32-bit integer, 0 when null or unparseable |
| PublishedContent.NullableNumericOf | Umbraco.Pylon/ContentAccessor.cs:276-284 | the parsed integer, null exactly when the value is null or unparseable |
| PublishedContent.NumericIsNullableOrZero | Umbraco.Pylon/ContentAccessor.cs:252-284 | the non-nullable reading is the nullable one with null read as 0 |
| PublishedContent.BooleanOf | Umbraco.Pylon/ContentAccessor.cs:303-308 | true exactly when the value parses as the boolean true |
| PublishedContent.DateOf | Umbraco.Pylon/ContentAccessor.cs:328-333 | the parsed date, the caller's default when null or unparseable |
| Cms.DynamicContent | Umbraco.Pylon/PublishedContentRepository.cs:121 | the helper's dynamic content is the node for a known id and Umbraco's null marker otherwise |
| ContentAccessor.New | Umbraco.PylonLite/ContentAccessor.cs:28-47 | a fresh accessor has no current object and no lookup, the defaults of its two auto-properties |
| ContentAccessor.SetGetContentFunc | Umbraco.PylonLite/ContentAccessor.cs:35-47 | assigning the lookup keeps the current object, and every later `Content(id)` consults the new lookup, throwing when it is unset |
| ContentAccessor.WithContent | Umbraco.PylonLite/ContentAccessor.cs:28 | assigning `ContentObject` keeps the lookup, and later property reads read the assigned object |
| ContentAccessor.ContentById | Umbraco.Pylon/ContentAccessor.cs:154-158 | `Content(id)` makes the lookup's result current and returns it; an unset delegate throws and changes nothing |
| ContentAccessor.Value | Umbraco.Pylon/ContentAccessor.cs:173-179 | null without a current object or the property; otherwise the property's value |
| ContentAccessor.ValueOn | Umbraco.Pylon/ContentAccessor.cs:187-191 | the overload makes the given object current and reads from it |
| ContentAccessor.StringValue | Umbraco.PylonLite/ContentAccessor.cs:79-87 | null exactly when there is no object, no property or a null value; otherwise the value's string form |
| ContentAccessor.StringValueOn | Umbraco.PylonLite/ContentAccessor.cs:95-99 | the overload makes the given object current and reads from it |
| ContentAccessor.DelimitedStringCollection | Umbraco.PylonLite/ContentAccessor.cs:107-113 | empty for a null or blank string value; otherwise pieces that re-join to it, one more than its delimiters |
| ContentAccessor.DelimitedStringCollectionOn | Umbraco.Pylon/ContentAccessor.cs:241-245 | the overload makes the given object current and reads from it |
| ContentAccessor.NumericValue | Umbraco.PylonLite/ContentAccessor.cs:133-138 | a 32-bit integer: 0 when absent, otherwise the parse with 0 on failure |
| ContentAccessor.NumericValueOn | Umbraco.Pylon/ContentAccessor.cs:265-269 | the overload makes the given object current and reads from it |
| ContentAccessor.NullableNumericValue | Umbraco.PylonLite/ContentAccessor.cs:157-165 | null exactly when the value is absent or unparseable |
| ContentAccessor.NullableNumericValueOn | Umbraco.Pylon/ContentAccessor.cs:292-296 | the overload makes the given object current and reads from it |
| ContentAccessor.BooleanValue | Umbraco.PylonLite/ContentAccessor.cs:184-189 | true exactly when the value is present and parses as true |
| ContentAccessor.BooleanValueOn | Umbraco.Pylon/ContentAccessor.cs:316-320 | the overload makes the given object current and reads from it |
| ContentAccessor.DateValue | Umbraco.PylonLite/ContentAccessor.cs:209-214 | the caller's default when absent or unparseable, the parsed date otherwise |
| ContentAccessor.DateValueOn | Umbraco.PylonLite/ContentAccessor.cs:223-227 | the overload makes the given object current and reads from it |
| ContentAccessor.NumericAgreesWithNullable | Umbraco.PylonLite/ContentAccessor.cs:133-165 | `NumericValue` falls back to 0 on exactly the inputs where `NullableNumericValue` is null |
| ContentAccessor.DelimitedCollectionRoundTrip | Umbraco.Pylon/ContentAccessor.cs:226-232 | a non-blank value and its delimited collection are each other's join and split |
| ContentAccessor.OverloadKeepsContentCurrent | Umbraco.PylonLite/ContentAccessor.cs:68-72 | after an overload that takes a content object, later single-argument reads see that object |
| ContentAccessor.ContentByIdFeedsLaterReads | Umbraco.PylonLite/ContentAccessor.cs:35-39 | after `Content(id)` the fetched node is the source of later reads |
| DocumentType.New | Umbraco.Pylon/DocumentTypeBase.cs:64-67 | the repository constructor leaves both the content and the dynamic content unassigned |
| DocumentType.NewWithContent | Umbraco.Pylon/DocumentTypeBase.cs:74-78 | the content constructor is the plain constructor followed by the setter |
| DocumentType.SetContent | Umbraco.Pylon/DocumentTypeBase.cs:98 | the setter assigns the content and leaves the dynamic content alone |
| DocumentType.SetDynamicContent | Umbraco.Pylon/DocumentTypeBase.cs:85 | assigning the dynamic content leaves the assigned content alone |
| DocumentType.ReadContent | Umbraco.Pylon/DocumentTypeBase.cs:192-204 | the getter returns assigned content, converts and caches a dynamic node, gives null for the null marker, raises the runtime binder's error for an unassigned dynamic value and fails the cast for a dynamic value that is not a node |
| DocumentType.ReadContentIsStable | Umbraco.Pylon/DocumentTypeBase.cs:95-99 | a second read returns what the first returned and changes nothing more |
| DocumentType.Name | Umbraco.Pylon/DocumentTypeBase.cs:109 | the content's name; the getter's exception propagates and null content is a null reference |
| DocumentType.Url | Umbraco.Pylon/DocumentTypeBase.cs:114 | the content's URL; the getter's exception propagates and null content is a null reference |
| DocumentType.HasContent | Umbraco.Pylon/DocumentTypeBase.cs:122 | true exactly when the content is non-null with a non-zero id |
| DocumentType.GetContent | Umbraco.Pylon/DocumentTypeBase.cs:137-145 | null without content, property or value; otherwise the value's string form |
| DocumentType.GetNumericContent | Umbraco.Pylon/DocumentTypeBase.cs:152-157 | a 32-bit integer; 0 when absent or unparseable |
| DocumentType.GetBooleanContent | Umbraco.Pylon/DocumentTypeBase.cs:164-169 | true exactly when the value is present and parses as true |
| DocumentType.GetDateContent | Umbraco.Pylon/DocumentTypeBase.cs:177-182 | the caller's default when absent or unparseable |
| DocumentType.AssignedContentIsReturned | Umbraco.Pylon/DocumentTypeBase.cs:74-99 | content given to the constructor or the setter is what the getter returns |
| DocumentType.NullMarkerMeansNoContent | Umbraco.Pylon/DocumentTypeBase.cs:194-197 | with the null marker as dynamic content there is no content and `HasContent` is false |
| DocumentType.DynamicNodeIsCached | Umbraco.Pylon/DocumentTypeBase.cs:200-203 | a dynamic node is converted on first read and returned by every later read, even after the dynamic value changes |
| MediaAccessor.ContentById | Umbraco.Pylon/MediaAccessor.cs:80-86 | a missing-method failure without a lookup, otherwise the lookup's result |
| MediaAccessor.ContentWith | Umbraco.Pylon/MediaAccessor.cs:95-102 | a null lookup is rejected; otherwise it is installed and its result returned |
| MediaAccessor.Exists | Umbraco.Pylon/MediaAccessor.cs:70-73 | false for null and 0; a missing lookup's failure is passed on; otherwise whether the lookup finds an item |
| MediaAccessor.Url | Umbraco.Pylon/MediaAccessor.cs:109-115 | "" when `Exists` is false, the item's URL when true, and `Exists`' failure otherwise |
| MediaAccessor.InstalledLookupIsUsed | Umbraco.Pylon/MediaAccessor.cs:95-102 | a lookup installed by `Content(id, f)` serves later `Content` and `Exists` calls |
| PylonRepository.New | Umbraco.Pylon/PublishedContentRepository.cs:33-34 | the parameterless constructor supplies no helper |
| PylonRepository.NewWithHelper | Umbraco.Pylon/PublishedContentRepository.cs:48-51 | the helper constructor stores the helper as given, null included |
| PylonRepository.NewWithContext | Umbraco.Pylon/PublishedContentRepository.cs:40-42 | the context constructor is the helper constructor applied to a helper built from the context |
| PylonRepository.Umbraco | Umbraco.Pylon/PublishedContentRepository.cs:59-69 | reading the helper fails exactly when none was supplied |
| PylonRepository.MediaItem | Umbraco.Pylon/PublishedContentRepository.cs:86-89 | the helper's media lookup, failing without a helper |
| PylonRepository.MediaExists | Umbraco.Pylon/PublishedContentRepository.cs:76-79 | false for null and 0; otherwise whether the helper's media lookup finds an item |
| PylonRepository.MediaUrl | Umbraco.Pylon/PublishedContentRepository.cs:96-102 | "" when `MediaExists` is false, otherwise the media item's URL |
| PylonRepository.Content | Umbraco.Pylon/PublishedContentRepository.cs:119-122 | null for null and 0 without touching the helper; otherwise the helper's dynamic content |
| PylonRepository.ContextConstructorIsHelperConstructor | Umbraco.Pylon/PublishedContentRepository.cs:40-51 | a repository from a context answers as one from that context's helper |
| PylonRepository.GuardsNeedNoHelper | Umbraco.Pylon/PublishedContentRepository.cs:78-121 | without a helper, null and 0 ids are still answered while reading the helper fails |
| ToolsRepository.New | Umbraco.PylonTools/PublishedContentRepository.cs:57-60 | the constructor rejects exactly a null helper |
| ToolsRepository.NewMediaFile | Umbraco.Pylon/Models/MediaFile.cs:17-22 | a null node and a node the `ThrowIf` test rejects are argument errors; the `Umbraco.PylonTools.Models.MediaFile` the repository builds is taken to guard its constructor like this Umbraco.Pylon copy |
| ToolsRepository.MediaItem | Umbraco.PylonTools/PublishedContentRepository.cs:81-82 | null for null and 0; otherwise the helper's media node wrapped in a `MediaFile` |
| ToolsRepository.MediaExists | Umbraco.PylonTools/PublishedContentRepository.cs:74 | whether `MediaItem` is non-null, its failures passing through |
| ToolsRepository.MediaExistsIntended | Umbraco.PylonTools/PublishedContentRepository.cs:74 | false for null, 0 and missing media; true only when `MediaItem` wraps the media node |
| ToolsRepository.Content | Umbraco.PylonTools/PublishedContentRepository.cs:96-97 | null for null and 0; otherwise the helper's typed content |
| ToolsRepository.ContentExists | Umbraco.PylonTools/PublishedContentRepository.cs:89 | true exactly when `Content` is non-null, so false for null and 0 |
| ToolsRepository.MediaExistsThrowsForMissingMedia | Umbraco.PylonTools/PublishedContentRepository.cs:74-82 | for a missing media id the code as written throws the null-argument error |
| ToolsRepository.MediaExistsIntendedAgrees | Umbraco.PylonTools/PublishedContentRepository.cs:74-82 | the corrected member fails only where the `ThrowIf` test rejects the node, and agrees wherever `MediaItem` succeeds |
| Link.NewLink | Umbraco.Pylon/Models/Link.cs:19-24 | succeeds exactly with a non-empty url and text, checking the url first |
| Link.LinkText | Umbraco.Pylon/Models/Link.cs:33 | blank text gives the content's name; other text is kept verbatim |
| Link.NewContentLink | Umbraco.Pylon/Models/Link.cs:32-34 | null content is rejected; otherwise the link to the content's URL with the chosen text |
| Link.Target | Umbraco.Pylon/Models/Link.cs:49 | "_blank" exactly for a link opening in a new tab, "_self" exactly otherwise |
| Link.ToString | Umbraco.Pylon/Models/Link.cs:67 | `ToString()` is the URL |
| Link.SetOpenInNewTab | Umbraco.Pylon/Models/Link.cs:44 | the flag changes and nothing else |
| Link.DefaultTargetIsSelf | Umbraco.Pylon/Models/Link.cs:19-34 | both constructors default to opening in the same tab |
| Link.ContentLinkText | Umbraco.Pylon/Models/Link.cs:32-34 | a content link shows non-blank text, otherwise the name, and a blank text with an empty name is rejected |
| LinkedViewModel.SetInnerObject | Umbraco.Pylon/LinkedViewModelBase.cs:35-43 | stores the value, then runs `InitModel` once, and it sees the stored value |
| LinkedViewModel.HasContent | Umbraco.Pylon/LinkedViewModelBase.cs:51 | false without an inner object, otherwise the inner object's `HasContent`, whose exception propagates |
| LinkedViewModel.Name | Umbraco.Pylon/LinkedViewModelBase.cs:59 | a null reference without an inner object, otherwise the inner getter's outcome, exception included |
| LinkedViewModel.Url | Umbraco.Pylon/LinkedViewModelBase.cs:67 | a null reference without an inner object, otherwise the inner getter's outcome, exception included |
| LinkedViewModel.Content | Umbraco.Pylon/LinkedViewModelBase.cs:75 | a null reference without an inner object, otherwise the inner getter's outcome, exception included |
| LinkedViewModel.AssignAllCountsInitialisations | Umbraco.Pylon/LinkedViewModelBase.cs:35-43 | n assignments run `InitModel` n times and keep the last value |
| LinkedViewModel.GettersReadAssignedObject | Umbraco.Pylon/LinkedViewModelBase.cs:51-75 | after an assignment the getters read the assigned object |
| LinkedViewModel.ViewOf | Umbraco.Pylon/DocumentTypeBase.cs:95-122 | the library's document type seen through `IDocumentType`: each getter's outcome is that of the document type's own getter |
| LinkedViewModel.InnerDocumentTypeGetters | Umbraco.Pylon/LinkedViewModelBase.cs:51-75 | wrapping a document type with content forwards its node's name and URL; with the null marker `Name` and `Url` are null references; with neither content nor dynamic value every getter throws the runtime binder's error |
| HttpResponse.For | Umbraco.Pylon/HttpResponseMessageGenerator.cs:21-34 | 200 with the item exactly for a non-null result, 404 with the fixed message exactly for null, 500 with the message exactly for an exception |
| HttpResponse.ExactlyOneStatus | Umbraco.PylonTools/HttpResponseMessageGenerator.cs:22-35 | every response has one of the three statuses |
| HttpResponse.ForIsInvertible | Umbraco.PylonTools/HttpResponseMessageGenerator.cs:22-35 | the outcome can be read back from the response |
| HttpResponse.ForIsInjective | Umbraco.Pylon/HttpResponseMessageGenerator.cs:21-34 | different outcomes give different responses |
| Mvc.Find | Umbraco.Pylon.TestSupport/Routes/MvcRouteAssert.cs:63 | a route-value lookup finds a value exactly when some key equals the asked one ignoring case, and returns that key's value |
| Mvc.RouteValueText | Umbraco.Pylon/UmbracoPylonInnerControllerBase.cs:164 | a string value prints as itself; the text is empty exactly for the optional marker or an empty string |
| Mvc.FindView | Umbraco.Pylon/PylonController.cs:146 | the view collection rejects a null controller context for "controllerContext", then an empty view name for "viewName", and otherwise gives the engines' answer |
| Mvc.ViewExists | Umbraco.Pylon/UmbracoPylonInnerControllerBase.cs:144-151 | with checking off every template passes; otherwise the view collection decides, and it throws exactly when the context is null or the name is empty |
| Mvc.ControllerRouteName | Umbraco.Pylon/UmbracoPylonInnerControllerBase.cs:200-203 | the derived route name has no capital letter and is no longer than the type name |
| Mvc.DefaultContext | Umbraco.Pylon/UmbracoPylonInnerControllerBase.cs:194-205 | building the default context fails with an argument-null error for "httpContext" exactly when there is no current HTTP context; otherwise it wraps that context and holds only the derived "controller" value |
| Mvc.EnsureContext | Umbraco.Pylon/UmbracoPylonInnerControllerBase.cs:189-207 | an existing context is kept whatever the HTTP context; otherwise the default is built, so the call fails exactly when there is neither a context nor an HTTP context |
| Mvc.CurrentTemplate | Umbraco.Pylon/UmbracoPylonInnerControllerBase.cs:162-170 | a null context or a missing "action" value is a null reference; otherwise the action's text is checked, a throwing check propagates, and the result is the view when it passes and empty content when it fails |
| Mvc.OptionalActionIsRejected | Umbraco.Pylon/UmbracoPylonInnerControllerBase.cs:162-170 | with checking on, an optional "action" value, which prints as "", makes `CurrentTemplate` throw the view collection's empty-name error |
| Mvc.SampleInnerControllerRouteName | Umbraco.Pylon/UmbracoPylonInnerControllerBase.cs:200-203 | "SampleInnerController" gives "sampleinner" |
| Mvc.RouteNameCanStillContainController | Umbraco.Pylon/UmbracoPylonInnerControllerBase.cs:200-203 | one `Replace` scan can leave "controller" in the name: "ConControllerTroller" gives "controller" |
| Mvc.RouteNameOfPlainName | Umbraco.Pylon/UmbracoPylonInnerControllerBase.cs:200-203 | the name is just lower-cased exactly when its lower-case form holds no "controller" |
| Mvc.DefaultContextNamesController | Umbraco.Pylon/UmbracoPylonInnerControllerBase.cs:194-206 | with an HTTP context the default context is built, answers the name under either spelling of the key and has no "action" |
| InnerController.New | Umbraco.Pylon/UmbracoPylonInnerControllerBase.cs:89-96 | construction installs the default renderer and turns file checking on |
| InnerController.NewWithContext | Umbraco.Pylon/UmbracoPylonInnerControllerBase.cs:48-52 | the context constructor is the plain one followed by storing the context |
| InnerController.SetUmbracoContext | Umbraco.Pylon/UmbracoPylonInnerControllerBase.cs:124 | only the context changes, and a controller without an assigned repository then builds its repository from that context |
| InnerController.SetContentRepo | Umbraco.Pylon/UmbracoPylonInnerControllerBase.cs:59-68 | only the repository changes, and an assigned repository is what the getter returns |
| InnerController.SetEnableFileCheck | Umbraco.Pylon/UmbracoPylonInnerControllerBase.cs:132 | only the flag changes, and the view check follows the new flag |
| InnerController.ContentRepo | Umbraco.Pylon/UmbracoPylonInnerControllerBase.cs:59-69 | the assigned repository, else a fresh one bound to the context when set, else a fresh one without helper |
| InnerController.EnsurePhysicalViewExists | Umbraco.Pylon/UmbracoPylonInnerControllerBase.cs:144-151 | true with checking off; otherwise it throws for "controllerContext" while the controller has no context and for "viewName" on an empty name, and else gives whether the view engine finds the view |
| InnerController.CurrentTemplate | Umbraco.Pylon/UmbracoPylonInnerControllerBase.cs:162-170 | the route's action names the view: with checking off the view, with checking on an empty name throws for "viewName", and otherwise the view when the engine finds it and empty content when not |
| InnerController.SetDefaultContext | Umbraco.Pylon/UmbracoPylonInnerControllerBase.cs:189-207 | an existing context is returned unchanged; without one and without an HTTP context the call throws for "httpContext" and the context stays null; otherwise the default context is installed and returned |
| InnerController.PartialAsString | Umbraco.Pylon/UmbracoPylonInnerControllerBase.cs:178-182 | a failure to build the default context propagates before any rendering; otherwise the context is in place and a null renderer is a null reference, a present one renders with that context |
| InnerController.SetDefaultContextIsIdempotent | Umbraco.Pylon/UmbracoPylonInnerControllerBase.cs:189-207 | after a successful call a second one returns the same context and changes nothing; a failed call leaves the controller as it was, so a later call with an HTTP context succeeds |
| InnerController.ConstructedControllerChecksViews | Umbraco.Pylon/UmbracoPylonInnerControllerBase.cs:89-96 | a fresh controller checks files but has no controller context, so its view check throws for "controllerContext"; once a context is set the engine decides; it has no repository of its own |
| InnerController.ContentRepoIsNotCached | Umbraco.Pylon/UmbracoPylonInnerControllerBase.cs:59-69 | the fallback repository is rebuilt on every read, and an assigned one always wins |
| InnerController.PartialAsStringSetsRouteName | Umbraco.Pylon/UmbracoPylonInnerControllerBase.cs:178-206 | on a controller without a context, rendering with an HTTP context leaves the derived route name in place, and rendering without one fails for "httpContext" with the controller unchanged |
| PylonController.InitController | Umbraco.Pylon/PylonController.cs:93-101 | stores the accessors and repository, installs the default renderer and turns file checking on, leaving the rest alone |
| PylonController.New | Umbraco.Pylon/PylonController.cs:68-71 | the generic constructor holds the given repository and accessors, checks files, and has the Umbraco context the framework's parameterless base supplies |
| PylonController.NewWithContext | Umbraco.Pylon/PylonController.cs:80-85 | the context constructor takes a non-null Umbraco context, which the framework base requires, keeps it, and holds the given repository and accessors with file checking on |
| PylonController.NewDefault | Umbraco.Pylon/PylonController.cs:34-35 | the non-generic constructor supplies a repository without a helper |
| PylonController.NewDefaultWithContext | Umbraco.Pylon/PylonController.cs:44-45 | the non-generic context constructor supplies a repository bound to the context, but goes through the context-free generic constructor, so the controller's own Umbraco context is the framework's, not the one given |
| PylonController.EnsurePhysicalViewExists | Umbraco.Pylon/PylonController.cs:141-148 | true with checking off; otherwise it throws for "controllerContext" while the controller has no context and for "viewName" on an empty name, and else gives whether the view is found |
| PylonController.SetDefaultContext | Umbraco.Pylon/PylonController.cs:165-183 | an existing context is kept; without one and without an HTTP context the call throws for "httpContext" and the context stays null; otherwise the default one is installed |
| PylonController.PartialAsString | Umbraco.Pylon/PylonController.cs:156-160 | a failure to build the default context propagates before any rendering; otherwise the context is in place and a null renderer is a null reference, a present one renders with that context |
| PylonController.SetDefaultContextIsIdempotent | Umbraco.Pylon/PylonController.cs:165-183 | the call fails exactly when there is neither a context nor an HTTP context; after a success a second call changes nothing, and the context holds the derived route name unless one existed |
| PylonController.ConstructorsInitialise | Umbraco.Pylon/PylonController.cs:34-101 | every constructor gives the default renderer and file checking, so a fresh controller's view check throws for "controllerContext"; the default repository fails or succeeds by whether a context was given, and that context does not become the controller's |
| ControllerBase.New | Umbraco.Pylon/UmbracoPylonControllerBase.cs:73-76 | the parameterless constructor turns file checking on |
| ControllerBase.NewWithContext | Umbraco.Pylon/UmbracoPylonControllerBase.cs:82-86 | the context constructor turns file checking on and holds the context |
| ControllerBase.UmbracoContext | Umbraco.Pylon/UmbracoPylonControllerBase.cs:101-114 | the framework's context, null exactly when its getter throws |
| ControllerBase.EnsurePhysicalViewExists | Umbraco.Pylon/UmbracoPylonControllerBase.cs:126-129 | true with checking off; otherwise the framework's check, the view collection's lookup with the controller's context, which throws exactly when there is no context or the name is empty |
| ControllerBase.CurrentTemplate | Umbraco.Pylon/UmbracoPylonControllerBase.cs:140-148 | the route's action names the view: with checking on an empty name throws for "viewName", otherwise the view when the framework finds it and empty content when not; with checking off the view |
| ControllerBase.SetContentRepo | Umbraco.Pylon/UmbracoPylonControllerBase.cs:49-58 | only the repository changes, and an assigned repository is what the getter returns |
| ControllerBase.ContentRepo | Umbraco.Pylon/UmbracoPylonControllerBase.cs:49-59 | the assigned repository, else a fresh one bound to the context when one is obtainable |
| ControllerBase.FailingContextStillGivesRepository | Umbraco.Pylon/UmbracoPylonControllerBase.cs:49-114 | a throwing context getter yields null and a repository without a helper |
| ControllerBase.ConstructedControllerChecksViews | Umbraco.Pylon/UmbracoPylonControllerBase.cs:73-148 | with either constructor, `CurrentTemplate` renders only views the framework finds and throws for an empty action; without a controller context the view check throws for "controllerContext" |
| RouteTesting.NewRouteInfo | Umbraco.Pylon.TestSupport/Routes/RouteTestingHelper.cs:200-205 | a new `RouteInfo` starts with an empty parameter list |
| RouteTesting.AddParametersAppends | Umbraco.Pylon.TestSupport/Routes/RouteTestingHelper.cs:55-58 | the parameter loop appends the names in order and changes nothing else |
| RouteTesting.RemoveOptional | Umbraco.Pylon.TestSupport/Routes/RouteTestingHelper.cs:172-183 | exactly the entries not holding the optional marker remain |
| RouteTesting.RemoveOptionalDistributes | Umbraco.Pylon.TestSupport/Routes/RouteTestingHelper.cs:172-183 | removal works entry by entry, so order is kept |
| RouteTesting.RemoveOptionalIsIdempotent | Umbraco.Pylon.TestSupport/Routes/RouteTestingHelper.cs:172-183 | removing twice removes nothing more |
| RouteTesting.RouteRequest | Umbraco.Pylon.TestSupport/Routes/RouteTestingHelper.cs:33-60 | no route is a null reference; otherwise the selection over the route values without optional markers, with its parameter names in order |
| RouteTesting.FirstMissing | Umbraco.Pylon.TestSupport/Routes/RouteTestingHelper.cs:155-161 | nothing is missing exactly when every expected name is present; otherwise the first absent one |
| RouteTesting.ShouldMapTo | Umbraco.Pylon.TestSupport/Routes/RouteTestingHelper.cs:124-162 | a routing failure always fails the check, passing through unchanged unless it is an HTTP response error; after routing succeeds every failure is a raised assertion; a pass needs the exact controller |
| RouteTesting.ShouldMapToGet | Umbraco.Pylon.TestSupport/Routes/RouteTestingHelper.cs:73-76 | the overloads without a verb check a GET request |
| RouteTesting.ShouldMapToIsMapsTo | Umbraco.Pylon.TestSupport/Routes/RouteTestingHelper.cs:124-162 | `ShouldMapTo` passes exactly when routing succeeds with an exact controller, the action ignoring case, and every expected parameter |
| RouteTesting.ShouldMapToReportsInOrder | Umbraco.Pylon.TestSupport/Routes/RouteTestingHelper.cs:141-153 | failures are reported controller first, then action, then parameter count |
| RouteTesting.ResponseErrorIsReported | Umbraco.Pylon.TestSupport/Routes/RouteTestingHelper.cs:130-139 | an HTTP response error is reported with its reason phrase |
| RouteTesting.RepeatedNameFailsCountCheck | Umbraco.Pylon.TestSupport/Routes/RouteTestingHelper.cs:149-153 | the count check compares lengths, so a name given twice fails against a route holding it once |
| WebApiRouteAssert.GetFullDummyUrl | Umbraco.Pylon.TestSupport/Routes/WebApiRouteAssert.cs:125-136 | the dummy host, then: the element after "~/"; after "~" alone when no "/" follows; after a leading "/"; or the whole element when it starts with neither |
| WebApiRouteAssert.DummyUrlExamples | Umbraco.Pylon.TestSupport/Routes/WebApiRouteAssert.cs:129-135 | "~/home/", "/home/" and "home/" give the same URL; "//x" keeps its second slash |
| WebApiRouteAssert.DummyUrlSpellingsAgree | Umbraco.Pylon.TestSupport/Routes/WebApiRouteAssert.cs:129-135 | the application-relative, root-relative and plain spellings of a path agree |
| WebApiRouteAssert.Maps | Umbraco.Pylon.TestSupport/Routes/WebApiRouteAssert.cs:52-66 | a route maps when `ShouldMapTo` completes for the dummy URL |
| WebApiRouteAssert.AssertRouteIsValid | Umbraco.Pylon.TestSupport/Routes/WebApiRouteAssert.cs:76-90 | passes exactly when `ShouldMapTo` completes, otherwise fails with "Route not valid" |
| WebApiRouteAssert.AssertRouteIsInvalid | Umbraco.Pylon.TestSupport/Routes/WebApiRouteAssert.cs:100-114 | passes exactly when `ShouldMapTo` throws, otherwise fails with its message |
| WebApiRouteAssert.ValidAndInvalidAreComplementary | Umbraco.Pylon.TestSupport/Routes/WebApiRouteAssert.cs:52-114 | for the same inputs exactly one of the two passes |
| WebApiRouteAssert.ValidMeansMapsTo | Umbraco.Pylon.TestSupport/Routes/WebApiRouteAssert.cs:76-90 | the valid-route assertion passes exactly when the route maps to the controller and action |
| MvcRouteAssert.ValueMatchesIgnoresCase | Umbraco.PylonLite.TestSupport/AssertionHelper.cs:29-32 | `IsCaseInsensitiveEqualTo` matches a string with itself and with any case variant, is symmetric on strings, lets null match only null, and never matches the optional marker |
| MvcRouteAssert.Run | Umbraco.PylonLite.TestSupport/IAssertionFramework.cs:227-238 | a run passes exactly when every assertion holds, and otherwise fails with the first failing one's message |
| MvcRouteAssert.ValidRouteAssertions | Umbraco.Pylon.TestSupport/Routes/MvcRouteAssert.cs:61-65 | route found, then controller, then action, then area only for a non-empty area |
| MvcRouteAssert.AssertRouteIsValid | Umbraco.Pylon.TestSupport/Routes/MvcRouteAssert.cs:57-66 | passes exactly when a route is found whose controller, action and non-empty area match ignoring case |
| MvcRouteAssert.ValidRouteVerdict | Umbraco.Pylon.TestSupport/Routes/MvcRouteAssert.cs:61-65 | the failure message names the first check that failed |
| MvcRouteAssert.PropertyAssertionsAsWritten | Umbraco.Pylon.TestSupport/Routes/MvcRouteAssert.cs:88-99 | at most one assertion, none exactly when every property is present and equal, and otherwise the assertion for the first property failing that test |
| MvcRouteAssert.PropertyAssertions | Umbraco.Pylon.TestSupport/Routes/MvcRouteAssert.cs:88-99 | at most one assertion, always a failing one, and none exactly when every property matches |
| MvcRouteAssert.RunConcat | Umbraco.Pylon.TestSupport/Routes/MvcRouteAssert.cs:83-99 | a failure in the first batch wins; otherwise the second batch decides |
| MvcRouteAssert.PropertyVerdict | Umbraco.Pylon.TestSupport/Routes/MvcRouteAssert.cs:88-99 | intended (corrected loop): the property check passes exactly when every property matches, and otherwise reports the first that does not |
| MvcRouteAssert.AllMatchingIssuesNothing | Umbraco.Pylon.TestSupport/Routes/MvcRouteAssert.cs:93 | intended (corrected loop): when every property matches, no extra assertion is issued |
| MvcRouteAssert.AssertRouteIsValidWithProperties | Umbraco.Pylon.TestSupport/Routes/MvcRouteAssert.cs:78-101 | intended (corrected loop): with properties, a found route passes exactly when its mappings and every property match, and a route whose mappings match fails on a property that does not |
| MvcRouteAssert.AssertRouteIsValidWithPropertiesAsWritten | Umbraco.Pylon.TestSupport/Routes/MvcRouteAssert.cs:78-101 | as written: a missing route fails, and a route whose mappings fail gives their verdict; with matching mappings, a route whose properties are all present and equal passes, and otherwise the first property failing that test decides: the route passes exactly when that property still matches, and else fails with that property's message; every route the intended loop passes also passes |
| MvcRouteAssert.PropertyVerdictAsWritten | Umbraco.Pylon.TestSupport/Routes/MvcRouteAssert.cs:88-99 | the loop as written passes when every property is present and equal, and otherwise passes exactly when the first property failing that test still matches, else failing with its message |
| MvcRouteAssert.AsWrittenAcceptsWhatIntendedAccepts | Umbraco.Pylon.TestSupport/Routes/MvcRouteAssert.cs:88-99 | the loop as written passes every route the intended loop passes |
| MvcRouteAssert.NullExpectationHidesLaterMismatch | Umbraco.Pylon.TestSupport/Routes/MvcRouteAssert.cs:93-97 | as written, a null-expected absent property stops the loop before a later mismatch |
| MvcRouteAssert.EntryLines | Umbraco.Pylon.TestSupport/Routes/MvcRouteAssert.cs:117-123 | one line per route value, in order, each its upper-cased key, ": " and the value |
| MvcRouteAssert.InvalidRouteMessage | Umbraco.Pylon.TestSupport/Routes/MvcRouteAssert.cs:111-126 | "" without a route, otherwise the header and the entry lines joined by line breaks |
| MvcRouteAssert.AppendIsJoin | Umbraco.Pylon.TestSupport/Routes/MvcRouteAssert.cs:116-125 | the string builder's appends equal a line-break join of the header and the entry lines |
| MvcRouteAssert.AssertRouteIsInvalid | Umbraco.Pylon.TestSupport/Routes/MvcRouteAssert.cs:108-129 | passes exactly when a GET request finds no route; the failure carries the message listing what was found |
| MvcRouteAssert.InvalidRouteMessageLines | Umbraco.Pylon.TestSupport/Routes/MvcRouteAssert.cs:116-125 | split at line breaks the message gives back the header and one line per route value |
| MvcRouteAssert.AssertOutgoingRouteUrlGeneration | Umbraco.Pylon.TestSupport/Routes/MvcRouteAssert.cs:140-150 | passes exactly when the generated URL equals the expected one ignoring case, two nulls being equal |

## Left out

- `ContentUrl` of Umbraco.Pylon's `PublishedContentRepository` (lines 109-112) is not modelled. It only forwards to the CMS's URL lookup, which is itself an input here.
- Object identity, freshness and reference equality are not modelled. A "fresh repository on each read" is a value computed on each read; the models cannot tell two equal repositories apart.
- `HttpResponseMessageGenerator.For` takes an `HttpRequestMessage` that it only forwards to `CreateResponse`, so the request is not modelled.
- HttpResponse.For: the function's single evaluation is given as its outcome. "Invoked exactly once" holds by construction and is not a separate statement.
- The view renderer (`ViewStringRenderer`) and the view engine are function parameters. Their I/O into a `StringWriter` is not modelled.
- PublishedContent.DateOf: `DateTime.TryParse` is culture-dependent and is a caller-supplied parser. Only the fallback to the default is proved.
- Parsing.ParseInt32: .NET also accepts trailing NUL characters after a number. That is not modelled.
- Mvc.FindView: the checks that `ViewEngines.Engines.FindView` makes on its arguments belong to the framework, which is not part of this model. The model takes them as given: a null controller context throws first, then a null or empty view name.
- Mvc.DefaultContext: the `ArgumentNullException` for a null HTTP context is raised by the framework's `RequestContext` constructor, which is not part of this model; the model takes it as given.
- PylonController.New: the Umbraco context the framework's parameterless base controller takes from the ambient context is an input (`frameworkContext`); what that base does when there is none is not modelled.
- WebApiRouteAssert.GetFullDummyUrl: the source's `StartsWith("~")` and `StartsWith("/")` are culture-sensitive and skip ignorable code points such as U+00AD (soft hyphen). The model compares ordinally, so an element such as "\u00AD~/x" keeps its "~" here where .NET would drop it.
- Text.Lower: the culture-sensitive `ToLower`/`ToUpper`, `InvariantCultureIgnoreCase`, and the `OrdinalIgnoreCase` comparison `bool.TryParse` uses on "True"/"False" are all modelled as case folding of ASCII letters only.
- ToolsRepository.NewMediaFile: `Umbraco.PylonTools.Models.MediaFile`, which the PylonTools repository builds, is not part of this model. Its constructor is taken to guard a null node as the Umbraco.Pylon copy (`Umbraco.Pylon/Models/MediaFile.cs`) does; the first finding rests on that.
- ToolsRepository.NewMediaFile: the `ThrowIf` test of the `MediaFile` constructor comes from a helper library that is not part of this model. It is a caller-supplied predicate.
- MvcRouteAssert.ValueMatches: the optional-parameter marker is not a string. Comparing it with a string through the invariant comparer throws in .NET; here it simply does not match.
- MvcRouteAssert.AssertRouteIsValidWithProperties: this is the corrected form of the seven-argument `AssertRouteIsValid`; the method as written is `MvcRouteAssert.AssertRouteIsValidWithPropertiesAsWritten` (see Findings). In both, a properties object is given as its list of property names and values, which stand in for reflection over an anonymous object. Values other than strings are not modelled.
- MvcRouteAssert.AssertOutgoingRouteUrlGeneration: the URL generation by `UrlHelper.GenerateUrl` is an input (the generated URL). The message the framework prints for the two-argument comparison is not modelled and is "".
- The typed `ShouldMapTo<TController>` overloads are modelled through the controller type's name.
- Dependency registration, forms authentication, view pages, the layered controllers, the sample applications and the mocking scaffolding are outside the core.

## Findings

| source | as written | input that shows it | evidently intended | confidence | as-written member | corrected member |
|---|---|---|---|---|---|---|
| Umbraco.PylonTools/PublishedContentRepository.cs:74-82 | `MediaExists` tests `MediaItem(id) != null`, but `MediaItem` always wraps the lookup in `new MediaFile(...)`, whose constructor throws on a null node (assuming `Umbraco.PylonTools.Models.MediaFile`, not part of this model, guards like the Umbraco.Pylon copy) | a repository with no media and id 1: `MediaExists` throws `ArgumentNullException("content")` | `MediaExists` is false when the media item does not exist | medium; not executed | ToolsRepository.MediaExistsThrowsForMissingMedia | ToolsRepository.MediaExistsIntended |
| Umbraco.Pylon.TestSupport/Routes/MvcRouteAssert.cs:93-97 | the first property failing "key present and equal" gets one assertion and the loop breaks, even when that assertion passes (expected null, key absent) | properties `a = null, b = "x"`, route values `b = "y"`: the assertion passes | every property is compared, and the first real mismatch fails | medium; not executed | MvcRouteAssert.NullExpectationHidesLaterMismatch | MvcRouteAssert.PropertyAssertions |
