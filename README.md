# Contentful.NET endpoint resolution and synchronization results, in Dafny

This project models two pure parts of the Contentful.NET client library for
the Contentful content-delivery API.

- **Endpoint resolution** (`RestEndpointResolver`), module `Endpoints` in
  `endpoints.dfy`. The C# type parameter `T` of the client becomes the
  datatype `ItemKind = Asset | LocalizedAsset | ContentType | Entry | Space`.
  The two read-only dictionaries become `const` maps over it.
  - `GetEndpointUrl` formats `https://{host}.contentful.com/spaces/{space}`
    followed by the kind's path suffix. The host is `preview` or `cdn`, and
    `preview` defaults to `false`.
  - `GetContentfulItemTypeName` looks up the kind's wire type name.
  - A kind missing from a dictionary gives `Failure(KeyNotFound(kind))`.
    This stands for the `KeyNotFoundException` the dictionary indexer throws.
    `LocalizedAsset` has no endpoint. `ContentType` and `Space` have no type
    name.
  - The type name of `Entry` is reproduced as the source writes it: `"Entrty"`.
  - `string.Format` is modelled by `Format`, which substitutes only the
    placeholders `{0}` and `{1}`. It is proved equal to plain concatenation
    for the base template followed by any suffix without `{`.
- **Synchronization result** (`SynchronizationResult<T>`), module
  `Synchronization` in `sync_result.dfy`. It is a datatype of `items`,
  `nextSyncUrl` and `nextPageUrl`. A C# `null` string is `None`. The two
  getters are functions of the datatype.
  - `HasMoreResults` holds iff the next-page URL is non-null and non-empty.
  - `SyncToken` is `Success(None)` (the C# `null`) for a null or empty
    next-sync URL. Otherwise it is piece `[1]` of the URL's query split on
    `'='`. When the query has no `'='`, it is `Failure(IndexOutOfRange)`.
  - `Uri.Query` is reduced to `Query`: the text from the first `?` up to the
    next `#` or the end. It is empty when there is no `?` or a `#` comes
    first.
  - `String.Split(char)` is modelled by `Split`. It is proved inverse to
    `Join`, and to give one piece more than there are separators.

Every function is a pure function of its arguments. The dictionaries are
constants. A getter of the result record is a function of the datatype value
and cannot change the record.

Notes on the code's behaviour:
- An empty next-sync URL gives a `null` token, not an empty one
  (Contentful.NET/DataModels/SynchronizationResult.cs:34-37).
- Nothing prevents `NextSyncUrl` and `NextPageUrl` from both being set.
  `BothUrlsMayBeSet` exhibits such a result.
- The token is piece `[1]` of the split query. For `?a=b&c=d` it is `b&c`,
  not the value of some named parameter.

## Model

| member | source | states |
|---|---|---|
| `Endpoints.Lookup` | Contentful.NET/RestEndpointResolver.cs:46 | a dictionary lookup succeeds exactly for keys in the dictionary, returns their entry, and otherwise fails with `KeyNotFound` for that key |
| `Endpoints.DictionaryKeys` | Contentful.NET/RestEndpointResolver.cs:20-34 | the endpoint table has every kind except `LocalizedAsset`; the type-name table has exactly `Asset`, `LocalizedAsset` and `Entry` |
| `Endpoints.Host` | Contentful.NET/RestEndpointResolver.cs:13-14 | the host is `preview` exactly when preview is asked for, and `cdn` exactly when it is not |
| `Endpoints.Format` | Contentful.NET/RestEndpointResolver.cs:46 | formatting any template with the arguments `{0}` and `{1}` gives back the template: placeholders are replaced by their arguments and every other character is copied (text without `{` alone: `FormatLiteral`) |
| `Endpoints.FormatLiteral` | Contentful.NET/RestEndpointResolver.cs:46 | formatting copies template text without `{` unchanged, whatever follows it |
| `Endpoints.FormatPlaceholder` | Contentful.NET/RestEndpointResolver.cs:46 | formatting replaces `{0}` and `{1}` by the first and second argument, inserted verbatim |
| `Endpoints.FormatApiBase` | Contentful.NET/RestEndpointResolver.cs:17 | formatting the base template plus a suffix without `{` equals `"https://" + host + ".contentful.com/spaces/" + space + suffix` |
| `Endpoints.GetEndpointUrl` | Contentful.NET/RestEndpointResolver.cs:43-47 | fails with `KeyNotFound` iff the kind is `LocalizedAsset`; otherwise the URL is the base URL with host and space inserted verbatim, followed by the kind's suffix |
| `Endpoints.EndpointSuffixes` | Contentful.NET/RestEndpointResolver.cs:20-26 | the suffixes are exactly `/assets/`, `/content_types/`, `/entries/` and the empty string, so a Space URL ends with the space id |
| `Endpoints.EndpointHost` | Contentful.NET/RestEndpointResolver.cs:45 | a resolved URL starts with `https://preview.` iff preview was asked for, and with `https://cdn.` iff it was not |
| `Endpoints.DefaultHost` | Contentful.NET/RestEndpointResolver.cs:43 | with the default `preview` argument the URL is on the `cdn` host and not on the `preview` host |
| `Endpoints.EndpointUrlInjective` | Contentful.NET/RestEndpointResolver.cs:45-46 | two equal URLs for one kind come from the same space id and the same preview flag |
| `Endpoints.GetContentfulItemTypeName` | Contentful.NET/RestEndpointResolver.cs:54-57 | fails with `KeyNotFound` iff the kind is `ContentType` or `Space`; the name is `Asset` iff the kind is one of the two asset kinds, and `Entrty` iff it is `Entry` |
| `Endpoints.TypeNameManyToOne` | Contentful.NET/RestEndpointResolver.cs:29-34 | `Asset` and `LocalizedAsset` share the type name `Asset`, and `Entry` maps to `Entrty` |
| `Synchronization.IsNullOrEmpty` | Contentful.NET/DataModels/SynchronizationResult.cs:34 | a string is null or empty iff it is `None` or has length zero |
| `Synchronization.SynchronizationResult.HasMoreResults` | Contentful.NET/DataModels/SynchronizationResult.cs:46 | more results follow iff the next-page URL is non-null and non-empty |
| `Synchronization.SynchronizationResult.SyncToken` | Contentful.NET/DataModels/SynchronizationResult.cs:30-41 | null for a null or empty next-sync URL; fails iff the URL is non-empty and its query has no `=`; a returned token holds no `=` |
| `Synchronization.TakeUntil` | Contentful.NET/DataModels/SynchronizationResult.cs:39 | the result is the longest prefix without the stop character |
| `Synchronization.TakeUntilStops` | Contentful.NET/DataModels/SynchronizationResult.cs:39 | reading up to `#` returns exactly the text before the fragment mark |
| `Synchronization.Query` | Contentful.NET/DataModels/SynchronizationResult.cs:39 | the query is empty, or starts with `?` and holds no `#` |
| `Synchronization.QueryEmpty` | Contentful.NET/DataModels/SynchronizationResult.cs:39 | a URL with no `?` before its first `#` (or with neither) has an empty query |
| `Synchronization.SyncTokenWithoutQuery` | Contentful.NET/DataModels/SynchronizationResult.cs:39 | a non-empty next-sync URL without a query, such as `https://host/spaces/x`, makes `SyncToken` fail with the index-out-of-range error |
| `Synchronization.QueryOfParts` | Contentful.NET/DataModels/SynchronizationResult.cs:39 | for a URL `path + query + fragment`, with no `?` or `#` in the path, the query is exactly the `?`-led part before the fragment |
| `Synchronization.Split` | Contentful.NET/DataModels/SynchronizationResult.cs:39 | splitting gives at least one piece, and no piece holds the separator |
| `Synchronization.SplitCount` | Contentful.NET/DataModels/SynchronizationResult.cs:39 | the number of pieces is one more than the number of separators, so piece `[1]` exists iff the separator occurs |
| `Synchronization.JoinSplit` | Contentful.NET/DataModels/SynchronizationResult.cs:39 | joining the pieces with the separator gives back the string |
| `Synchronization.SplitJoin` | Contentful.NET/DataModels/SynchronizationResult.cs:39 | splitting the join of separator-free pieces gives back the pieces |
| `Synchronization.SplitLeading` | Contentful.NET/DataModels/SynchronizationResult.cs:39 | a separator-free text followed by the separator becomes the first piece, and splitting goes on after it |
| `Synchronization.SplitWhole` | Contentful.NET/DataModels/SynchronizationResult.cs:39 | a text without the separator splits into itself alone |
| `Synchronization.SplitFirst` | Contentful.NET/DataModels/SynchronizationResult.cs:39 | the first piece is the text up to the first separator |
| `Synchronization.SplitSecond` | Contentful.NET/DataModels/SynchronizationResult.cs:39 | piece `[1]` exists and is the text after the first separator, up to the next one or the end |
| `Synchronization.SyncTokenBetweenSeparators` | Contentful.NET/DataModels/SynchronizationResult.cs:39 | for a next-sync URL whose query is `?key=token…`, the token is the text between the first and the second `=` of the query |
| `Synchronization.SyncTokenRoundTrip` | Contentful.NET/DataModels/SynchronizationResult.cs:39 | a URL with query `?sync_token=t`, where `t` holds no `=` or `#`, gives back `t` |
| `Synchronization.SyncTokenExample` | Contentful.NET/DataModels/SynchronizationResult.cs:39 | `https://host/spaces/x?sync_token=ABC123` gives `ABC123`, whatever the items and next-page URL are |
| `Synchronization.DerivedValuesIndependent` | Contentful.NET/DataModels/SynchronizationResult.cs:30-46 | `SyncToken` depends only on the next-sync URL and `HasMoreResults` only on the next-page URL |
| `Synchronization.HasMoreResultsMeaning` | Contentful.NET/DataModels/SynchronizationResult.cs:46 | `HasMoreResults` holds iff the next-page URL is a non-null, non-empty string |
| `Synchronization.BothUrlsMayBeSet` | Contentful.NET/DataModels/SynchronizationResult.cs:20-25 | a result may have both URLs set; it then has more results and a sync token at once |

## Left out

- `Synchronization.SynchronizationResult.SyncToken`: does not model `System.Uri` parsing. A non-empty string that is not an absolute URI would throw `UriFormatException`; the model still extracts a query from it. Percent-escaping of the query is not modelled either.
- `Endpoints.Format`: does not model `{{` escapes, format specifiers or the `FormatException` on a malformed template. The templates used hold only `{0}` and `{1}`.
- A null space id is not modelled; `string.Format` would insert it as empty text. A null `Items` enumerable is not modelled either; `items` is always a sequence.
- The client interface (`IContentfulClient`) is not part of this model. It has no implementation here. Its HTTP status checks, the refusal of sync against the preview API, cancellation and asynchronous tasks are left out.
- The sync-draining loop of the demo controller (KitchenSink/Controllers/DogsController.cs) is demo UI code and is not modelled. It discards the concatenated items.
- The data-only types (`LocalizedAsset`, `LocalizedAssetDetails`, `ILocalizedContentfulItem`) appear only as the `LocalizedAsset` kind and as the item type parameter `T`.
- JSON field mapping, search filters, search results and HTTP transport are left out. Their code is not part of this model.
