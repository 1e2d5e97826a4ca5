# ngx_mruby request binding, modelled in Dafny

This project models `ngx_http_mruby_request.c` from ngx_mruby. That file connects the
mruby class `Nginx::Request` to the nginx request that is currently being handled. It has
three parts, and the model has each of them:

- **The active-request slot** (`ngx_mruby_request_state`). This is a process-wide pointer.
  `ngx_mrb_push_request` overwrites it and returns `NGX_OK`, and `ngx_mrb_get_request`
  reads it back. In the model it is the class `MrubyRequest.RequestSlot`, whose one field is
  a nullable `Request`.
- **The scalar field accessors.** Two macros generate a getter and a setter for seven
  `ngx_str_t` fields: `request_line`, `uri`, `unparsed_uri`, `method_name`, `http_protocol`,
  `args` and `headers_out.content_type`. The model writes each macro once, as
  `GetMember` / `SetMember`, with the field as a parameter (`NgxHttp.Field`).
  - An `ngx_str_t` is `NgxStr(data, len)`. `data` holds every byte readable from the pointer
    onward.
  - The getter copies exactly `len` bytes, so zero bytes inside the field are kept.
  - The setter does nothing for `nil`. Otherwise it points `data` at the mruby string's own
    buffer, without copying it, and sets `len := strlen(buffer) + 1`. The model takes that
    buffer to be the string's bytes followed by one zero byte. This is what a string that
    owns its buffer provides; see "## Left out" for strings that share a buffer.
  - So a read after a write returns the written string up to its first zero byte, followed
    by one zero byte. `SetThenGet`, `SetThenGetNoZero` and `SetThenGetRoundTrip` prove this
    as-written behaviour. The last one says exactly when the read equals what was written.
- **Header flattening** (`ngx_mrb_get_request_headers`). This walks nginx's segmented header
  list into an mruby hash. The list is a datatype chain `ListPart(elts, nelts, next)`.
  `GetRequestHeaders` is a `while` loop over the same cursors as the C code: the part, its
  slot array `header`, and the index `i`, which restarts at 0 in each new part. It is proved
  to return `HashOf(Pairs(Entries(first part)))`, where:
  - `Entries` lists the used slots of each part, in order.
  - `Pairs` converts each key and value by C-string scan, ignoring `len`.
  - `HashOf` inserts the pairs one at a time, so the last write wins.

  The lemmas then describe that hash: which keys it holds, that each value comes from the
  key's last occurrence, and at which position each used slot lands.

The walk requires every part after the first to hold at least one entry
(`LaterPartsNonEmpty`). This is because the C loop reads slot 0 of a part it has just entered
without checking that part's `nelts`. The first part may be empty.

Two consequences of what the code does:

- The setter does not copy. Set-then-get cuts the written string at its first zero byte
  and appends one zero byte, so it gives back the written string only when that string's
  only zero byte is its last byte.
- The code dereferences the slot unchecked. So the getters and the header walk require a
  non-null slot. The setter reads the slot only after its `nil` check, so only its string
  path requires one. `ngx_mrb_push_request` accepts null as well, which empties the slot.

Modules: `CStrings` (`cstrings.dfy`: bytes, `strlen` and the C-string view),
`NgxHttp` (`ngx_http.dfy`: `ngx_str_t`, table entries, list parts, the request object),
`MrubyRequest` (`mruby_request.dfy`: the slot and the scalar accessors),
`MrubyRequestHeaders` (`request_headers.dfy`: the header walk and its specification).

## Model

| member | source | states |
|---|---|---|
| CStrings.StrLen | ngx_http_mruby_request.c:36 | `ngx_strlen` counts the bytes before the first zero byte: none of them is zero, and the next byte (if any) is zero |
| CStrings.CStr | ngx_http_mruby_request.c:103-104 | `mrb_str_new_cstr` yields the zero-free prefix of the buffer that stops at its first zero byte |
| CStrings.StrLenAppendZero | ngx_http_mruby_request.c:34-36 | Adding mruby's terminator never changes `strlen`: an earlier zero is still found first, and otherwise the terminator is |
| CStrings.StrLenIsFirstZero | ngx_http_mruby_request.c:36 | `strlen` equals any position holding a zero byte with no zero byte before it |
| CStrings.CStrTerminated | ngx_http_mruby_request.c:103-104 | A zero-free string followed by a terminator scans back to itself |
| NgxHttp.Request.Assign | ngx_http_mruby_request.c:36-37 | Storing into one of the seven fields sets that field and leaves the other six and the header list unchanged |
| MrubyRequest.RequestSlot.constructor | ngx_http_mruby_request.c:41 | The slot starts out null, as static storage does |
| MrubyRequest.RequestSlot.PushRequest | ngx_http_mruby_request.c:45-54 | Push accepts any request pointer, null included, and always returns `NGX_OK`. The following `ngx_mrb_get_request` returns exactly the pushed pointer, whatever was stored before |
| MrubyRequest.GetMember | ngx_http_mruby_request.c:15-21 | A getter returns exactly the field's recorded length in bytes, taken from the field's data. It does not stop at a zero byte. One definition stands for the seven getters at lines 57-62 and 72 |
| MrubyRequest.SetMember | ngx_http_mruby_request.c:23-39 | A setter returns `self`. With `nil` it changes nothing. With a string, the target field aliases the string's buffer with length `strlen + 1`, the other six fields and the header list are unchanged, and a valid request stays valid. One definition stands for the seven setters at lines 64-69 and 74 |
| MrubyRequest.PointAtValid | ngx_http_mruby_request.c:36-37 | After a set, the recorded length is the string's `strlen` plus one and stays within the aliased buffer |
| MrubyRequest.SetThenGet | ngx_http_mruby_request.c:34-37 | Reading a field after setting it to `s` yields `s` up to its first zero byte, followed by one zero byte |
| MrubyRequest.SetThenGetNoZero | ngx_http_mruby_request.c:36-37 | For a string without zero bytes, set-then-get yields the string plus a trailing zero byte |
| MrubyRequest.SetThenGetRoundTrip | ngx_http_mruby_request.c:20-37 | Set-then-get returns exactly the written string if and only if the string's only zero byte is its last byte |
| MrubyRequest.StrNewVersusCStr | ngx_http_mruby_request.c:20 | The getter's length-bounded copy equals a C-string scan of the same bytes if and only if `len == strlen(data)`. That covers both `len` at the first zero byte and, for data with no zero byte, `len` equal to the whole data. A zero byte inside `len` is kept by the copy and cut by the scan |
| MrubyRequestHeaders.ConvertIgnoresLen | ngx_http_mruby_request.c:103-104 | A header's key and value are converted from their bytes up to the first zero byte, whatever `len` they record |
| MrubyRequestHeaders.Pairs | ngx_http_mruby_request.c:103-104 | Each visited entry becomes one (key, value) pair, converted by C-string scan, in visiting order |
| MrubyRequestHeaders.GetRequestHeaders | ngx_http_mruby_request.c:76-108 | The walk stops at the null `next` link. Its hash is what inserting the converted pairs of all used slots, in order, yields. This requires every part after the first to be non-empty: on entering a part the loop reads `header[0]` without checking `nelts`, so an empty part would feed an unused slot into the hash |
| MrubyRequestHeaders.EnterNextPart | ngx_http_mruby_request.c:93-100 | On leaving an exhausted part with a non-null `next`, the entries still to visit are exactly those of the next part, from index 0 |
| MrubyRequestHeaders.VisitOne | ngx_http_mruby_request.c:103-105 | Visiting slot `i` moves exactly that entry from "to visit" to "visited" and adds its converted key and value to the hash |
| MrubyRequestHeaders.EntriesLayout | ngx_http_mruby_request.c:88-101 | Slot `k < nelts` of the `m`-th part is visited at position `Offset(m) + k`, with positions of different parts disjoint. The number of visited entries is the sum of the `nelts`. So each used slot is visited exactly once, in order, and unused capacity never is |
| MrubyRequestHeaders.EntriesLength | ngx_http_mruby_request.c:91-93 | The walk visits as many entries as the parts' `nelts` add up to |
| MrubyRequestHeaders.HashOfKeys | ngx_http_mruby_request.c:87-105 | The hash's keys are exactly the converted keys of the visited entries |
| MrubyRequestHeaders.HashOfLastWins | ngx_http_mruby_request.c:105 | A key maps to the value of its last occurrence |
| MrubyRequestHeaders.HashOfFromLast | ngx_http_mruby_request.c:87-105 | Conversely, every key of the hash has a last occurrence, and that occurrence supplies its value |
| MrubyRequestHeaders.HashOfExample | ngx_http_mruby_request.c:105 | `[("A","1"), ("B","2"), ("A","3")]` gives `{"A" => "3", "B" => "2"}` |
| MrubyRequestHeaders.TwoPartExample | ngx_http_mruby_request.c:88-105 | A two-part list whose second part has unused capacity: the entries of both parts reach the hash, the unused slot does not, and the later "A" wins |

## Left out

- `ngx_mrb_request_class_init` (lines 110-130) is left out. It only registers method names and arities with the mruby runtime.
- `mrb_get_args`, `RSTRING_PTR`, mruby string and hash allocation, and garbage collection are left out. The model takes their results as values: `MrbValue` for the argument, `seq<byte>` for strings, and a `map` for the hash. Hash keys compare by content, as mruby string keys do.
- Pointer lifetime and aliasing are left out. The setter stores the mruby buffer into the request without copying it, and the model treats that buffer as an immutable value. It does not capture a later change to, or collection of, that mruby string. Likewise, the slot may hold a dangling request pointer, and the model does not capture that.
- Concurrency and the event loop are left out. The slot assumes one request at a time on one thread.
- The `mrb_state` argument is left out. The receiver `self` is passed through unchanged, as a value.
- Of `ngx_table_elt_t`, only `key` and `value` are modelled. `hash` and `lowcase_key` are not read here.
- MrubyRequest.StrPtr: the setter's buffer is assumed to be the string's bytes followed by one zero byte. mruby does not guarantee this for a shared substring, whose `RSTRING_PTR` points into its parent's buffer with no zero byte right after its own bytes. There `ngx_strlen` at line 36 runs on into the parent's bytes, and the read-back is the parent's bytes up to their first zero byte, not `CStr(s) + [0]`. The model does not capture that case.
- MrubyRequest.SetMember: a setter argument that is neither `nil` nor a string is excluded by a precondition. `RSTRING_PTR` on such a value is undefined.
- MrubyRequest.GetMember: an unset slot is excluded by a precondition. The code dereferences the slot unchecked and has no error path for it.
- MrubyRequestHeaders.GetRequestHeaders: an unset slot is excluded by a precondition for the same reason. So is a header key or value without a zero byte, on which `mrb_str_new_cstr` would read past the buffer.
