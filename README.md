# ifunnyapi core, modelled in Dafny

This project models the logic of the `ifunnyapi` client library for the iFunny API. The rest of the library is HTTP plumbing. The modelled parts are:

- **Cursor paging** (`_get_paging_items`, `paging.dfy`).
  - No limit: the client fetches pages of 100 and follows each page's `next` cursor while the page says `hasNext`. After the loop it always sends one more request of 100, with the cursor of the first page without `hasNext`.
  - A limit of at most 100: one page of that size.
  - A larger limit: one page of 100, then `(limit - 100) div 100` cursor-following pages of 100, then one page of the remainder.
  - The server is an oracle `nat -> Reply`: reply k answers the k-th request of a run. A reply is a page or the error the request raised.
  - The method returns the result (items, or the error raised) together with the trace of requests it sent.
  - It is proved against reference definitions: `RequestAt` (request k), `FetchCount` (how many requests an uninterrupted run makes), `Fault` (the error raised after request k) and `Flatten` (the items of the first n replies).
  - Lemmas then state the request plan, the sizes and the order of the items over those definitions.
- **Single-item feed generators** (`featured`, `collective`, `subscriptions`, `popular`; `feeds.dfy`).
  - For a finite limit, each iteration fetches a page of one, takes its first item, sends the read mark for featured and subscriptions posts when `read` is set, and yields the item.
  - The model drains a generator and returns the items yielded, the calls sent, and the error that ended it early, if any.
- **Upload request fields** (`upload.dfy`, `jsontext.dfy`).
  - The post type and the file field come from what the image library detected, which is an input here.
  - The description defaults to `""` and the tags to `[]`.
  - The tags are written as JSON, with an ASCII-only `json.dumps` of a list of strings, and a decoder proves that the written text reads back as the list.
- **The response check and its error** (`utils.py`'s `api_request`, `exceptions.py`; `utils.dfy`, `exceptions.dfy`, `pyvalues.dfy`).
  - A response that has an `"error"` key raises `APIError(status, error_description)` when both `status` and `error_description` are present. Otherwise it raises a `KeyError` for the first missing key, `status` before `error_description`.
  - The error's text form is `status <status>, <desc>`, and it determines an integer status and the description.

Python exceptions are modelled as the `Err` side of a `Result`: `APIError`, a `KeyError` carrying the missing key, or an `IndexError`.

## Model

| member | source | states |
|---|---|---|
| Paging.GetPagingItems | ifunnyapi/api.py:209-253 | The requests sent are exactly `RequestAt(0)`, `RequestAt(1)`, … and there are at most `FetchCount` of them. Every reply before the last sent raised nothing. An error result is the `Fault` of the last request. A normal result means all `FetchCount` requests were made, and the result is the concatenation of every reply's items in request order. |
| Paging.FollowCursors | ifunnyapi/api.py:242-247 | The `while` loop sends requests `RequestAt(1..)` in order. Either it stops at the first fault, with that fault, or it ends at reply `FetchCount - 2`, with the items of all replies so far. |
| Paging.LoopStep | ifunnyapi/api.py:244-246 | Inside the loop, the next request is a page of 100 with the current page's cursor. A missing cursor raises `KeyError("next")`. |
| Paging.FinalStep | ifunnyapi/api.py:248-252 | After the loop there is exactly one more request. Without a limit it is 100 with the cursor, and a missing cursor is a `KeyError`. With a limit it is the remainder with no cursor. |
| Paging.FirstStop | ifunnyapi/api.py:244 | Picks a reply that ends the unbounded loop. |
| Paging.FirstStopLeast | ifunnyapi/api.py:244 | No reply before `FirstStop` ends the loop. |
| PagingProperties.SinglePageRun | ifunnyapi/api.py:232-239 | A limit of at most 100, including 0 and negative limits, means one request of size `limit` with no cursor. The result is that page's items, or that page's error. |
| PagingProperties.BoundedPlan | ifunnyapi/api.py:240-251 | A limit above 100 means `val + 2` requests: 100 with no cursor, then `val` requests of 100, each with the previous page's cursor, then `rem` with no cursor, even when `rem` is 0. Also `100 + 100·val + rem == limit` and `0 <= rem < 100`. |
| PagingProperties.FullPagesSum | ifunnyapi/api.py:240-247 | The first j requests of a run with a limit above 100, where j ≤ val + 1, are pages of 100. |
| PagingProperties.SizesSumToLimit | ifunnyapi/api.py:233-251 | With a limit, the page sizes requested add up to exactly the limit. |
| PagingProperties.PageSizesInRange | ifunnyapi/api.py:233 | For no limit or a limit ≥ 0, every page size is between 0 and 100. |
| PagingProperties.UnboundedPlan | ifunnyapi/api.py:233-249 | Without a limit: every request is 100. The first request has no cursor, and every later one has the cursor of the reply just before it. The run sends m + 2 requests, where reply m is the first to end the loop, and every earlier reply has `hasNext`. |
| PagingProperties.FlattenErased | ifunnyapi/api.py:236-252 | The items of the first j replies do not depend on the `hasNext` flags. How many replies an unbounded run collects does depend on them. |
| PagingProperties.BoundedIgnoresHasNext | ifunnyapi/api.py:240-251 | With a limit, `hasNext` is never consulted. Two servers that differ only in it give the same request count, requests, faults and items. |
| PagingProperties.FlattenPageAt | ifunnyapi/api.py:236-252 | The items of reply i sit, unchanged, right after those of replies 0..i-1 in the result. Nothing is dropped, reordered or deduplicated. |
| PagingProperties.FlattenLength | ifunnyapi/api.py:236-252 | The result's length is the sum of the page lengths. |
| PagingProperties.FlattenBelowSizes | ifunnyapi/api.py:236-252 | If the server never sends more items than asked for, the first j pages hold at most the sum of their requested sizes. |
| PagingProperties.ResultWithinLimit | ifunnyapi/api.py:233-253 | If the limit is ≥ 0 and the server never sends more than asked for, the result has at most `limit` items. |
| PagingProperties.WorkedLimits | ifunnyapi/api.py:240-251 | Limit 150 gives sizes 100, 50. Limit 250 gives 100, 100, 50. Limit 200 gives 100, 100 and then a request of size 0 with no cursor. |
| Feeds.NextItem | ifunnyapi/api.py:467-472 | One iteration fails exactly when its fetch raises, the page is empty, the item has no id when reads are marked, or the read mark raises. Otherwise it yields the first item of the page. The calls it sends are the page fetch, then the read mark for that item's id. |
| Feeds.DrainFeed | ifunnyapi/api.py:453-527 | With no error, exactly `max(limit, 0)` items are yielded. With an error, fewer than `limit` are yielded and the error is that of the next iteration. Item i is the first item of the page fetched by call `CallIndex(i)`, and iteration i went through. The calls are those of the yielded items, plus the partial calls of the failing iteration. |
| FeedProperties.FeedTraceShape | ifunnyapi/api.py:466-472 | The calls for the yielded items are: one fetch of a page of 1 per item, with the feed's verb (POST only for collective). When the feed marks reads, each fetch is followed by exactly one read mark with that item's id and `from` tag (`feat` or `subs`). |
| FeedProperties.YieldedCarryIds | ifunnyapi/api.py:469-471 | Every yielded item has an id when the feed marks reads, so `FeedTraceShape` applies to what `DrainFeed` yields. |
| Upload.Classify | ifunnyapi/api.py:559-566 | The file field is `image` exactly when a format was identified, and `video` otherwise. The type is `video_clip` exactly when no format was identified, `gif` exactly for GIF, and `pic` exactly for any other image. |
| Upload.UploadRequest | ifunnyapi/api.py:559-572 | The description is the given one or `""`. The tags field decodes back to the given list, or to `[]` when none is given. It is `"[]"` exactly when no tags or an empty list are given, and it is printable ASCII. The type and file field are `Classify`'s choice, and the visibility is the enum's value. |
| JsonText.DumpStrings | ifunnyapi/api.py:569 | The JSON text of a list of strings is printable ASCII, and it is `[]` exactly for the empty list. |
| JsonText.Hex4RoundTrip | ifunnyapi/api.py:569 | A `\uXXXX` escape reads back as its code unit. |
| JsonText.ReadEscapedChar | ifunnyapi/api.py:569 | The escape written for any character reads back as that character. |
| JsonText.ReadEscapedBody | ifunnyapi/api.py:569 | An escaped string followed by a closing quote reads back as the string. |
| JsonText.ReadJoined | ifunnyapi/api.py:569 | The quoted, comma-separated items read back as the list. |
| JsonText.DumpStringsRoundTrip | ifunnyapi/api.py:569 | The tags text reads back as the list: `loads(dumps(xs)) == xs`. |
| Utils.ApiRequest | ifunnyapi/utils.py:11-15 | The response is returned unchanged exactly when there is no `"error"` key. Otherwise the check raises `KeyError("status")` if status is missing, then `KeyError("error_description")` if the description is missing, else `APIError(retv["status"], retv["error_description"])`. |
| Utils.ErrorValueIrrelevant | ifunnyapi/utils.py:13 | Only the presence of `"error"` matters: any value under it, null or false included, raises, and all values give the same outcome. |
| Exceptions.Message | ifunnyapi/exceptions.py:16-17 | The text of an `APIError` starts with `status `. |
| Exceptions.MessageRoundTrip | ifunnyapi/exceptions.py:11-17 | For an integer status, the text `status <str(status)>, <desc>` gives back both the status and the description. |
| PyValues.NatToDecimalRoundTrip | ifunnyapi/exceptions.py:17 | The decimal digits of a natural number read back as that number. |
| PyValues.IntToDecimalRoundTrip | ifunnyapi/exceptions.py:17 | `str()` of an integer reads back as the same integer. |
| PyValues.PyStr | ifunnyapi/exceptions.py:17 | `str()` of a string value is the string itself, and `str()` of an integer reads back as that integer. |

## Left out

- HTTP verbs, `requests` calls and JSON decoding (`_get`/`_post`/`_put`, api.py:75-133) are network I/O. Each request's reply is an input, supplied by the server oracle.
- Endpoint path templating and the one-line endpoint methods that forward to `_get_paging_items` or `_get` are thin wrappers and are not modelled. The `path` and `key` arguments of `_get_paging_items` only select the URL and the response field, so they are left out.
- `ifunnyapi/auth.py`, `setup.py` and the enum tables in `ifunnyapi/enums.py` are not part of this model, except the two values of `IFPostVisibility`. Both are plumbing or constants.
- `Image.open`, `crop_ifunny_watermark` and file reading in `upload` are wrappers over libraries and the file system. Detection is an input, and the media bytes and the final `_post` call of `upload` are not modelled.
- `tag_posts` is left out because it passes `params=` twice.
- Paging.GetPagingItems: a reply is either a page, with items, a `hasNext` flag and an optional cursor, or an error. A response that lacks `data`, `items` or `hasNext` (a `KeyError` in the source) is not modelled. A missing `next` cursor is modelled.
- Paging.GetPagingItems: without a limit, a run is modelled only against a server that eventually sends a page without `hasNext` or an error (`Terminates`). The source loops forever against any other server.
- Feeds.DrainFeed: only a finite limit is modelled. The infinite `iter(int, 1)` branch never ends by design.
- Feeds.DrainFeed: the generator is drained to its end. A consumer that stops early sees a prefix of `yielded`, and that is not modelled separately.
- Feeds.DrainFeed: the `**kwargs` of the page fetch and the `User-Agent` header of the read mark are not modelled.
- Utils.ApiRequest: the decorator's call of the wrapped function is not modelled. The model starts from the value that call returned, so "called exactly once with the original arguments" is not stated. A response that is not a JSON object is not modelled.
- Exceptions.Message: the base exception's empty `args` tuple (`super().__init__()` with no arguments) is not modelled.
- Exceptions.Message: values other than null, booleans, integers and strings are opaque (`JOther`) and carry their own `str()` text.
- JsonText.DumpStringsRoundTrip: a string holding a lone surrogate is not representable, because Dafny characters are Unicode scalar values. `LoadStrings` reads only the layout `json.dumps` writes (`", "` separators, no other whitespace).
