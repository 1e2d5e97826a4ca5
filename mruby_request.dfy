/** The active-request slot and the scalar field accessors of the `Nginx::Request`
    mruby class: a getter and a setter per field, all generated from one pair of
    definitions parameterised by the field. */
module MrubyRequest {
  import opened CStrings
  import opened NgxHttp

  /** nginx's success code. */
  const NGX_OK: int := 0

  /** The mruby values an accessor can be handed: `nil`, a string, or any other
      object (the receiver `self`, for one). */
  datatype MrbValue = Nil | Str(bytes: seq<byte>) | Obj(id: nat)

  /** The process-wide `ngx_mruby_request_state`: the request currently being
      scripted against, or null. The slot does not own the request. */
  class RequestSlot {
    var state: Request?

    /** Static storage starts out null. */
    constructor ()
      ensures state == null
    {
      state := null;
    }

    /** `ngx_mrb_push_request`: overwrites the slot with `r`, null included,
        whatever it held, and succeeds. */
    method PushRequest(r: Request?) returns (rc: int)
      modifies this
      ensures rc == NGX_OK
      ensures GetRequest() == r
    {
      state := r;
      rc := NGX_OK;
    }

    /** `ngx_mrb_get_request`: reads the slot back, without checking it. */
    function GetRequest(): (r: Request?)
      reads this
    {
      state
    }
  }

  /** `mrb_str_new(data, len)`: a fresh string of exactly the recorded length,
      copied byte for byte; zero bytes inside it are copied like any other. */
  function StrNew(m: NgxStr): (s: seq<byte>)
    requires m.Valid()
  {
    m.data[..m.len]
  }

  /** The buffer `RSTRING_PTR` is taken to yield for a string holding `s`: its
      bytes, followed by one zero byte. This holds for a string that owns its
      buffer; a shared substring is not covered. */
  function StrPtr(s: seq<byte>): (buf: seq<byte>)
  {
    s + [0]
  }

  /** What a setter stores: `len` becomes `strlen(buf) + 1` and `data` points at
      `buf` itself, which is not copied. */
  function PointAt(buf: seq<byte>): (m: NgxStr)
  {
    NgxStr(buf, StrLen(buf) + 1)
  }

  /** The getter that `NGX_MRUBY_DEFINE_METHOD_NGX_GET_REQUEST_MEMBER_STR`
      generates, for the field `f`: it copies exactly the field's recorded length. */
  function GetMember(slot: RequestSlot, f: Field): (s: seq<byte>)
    reads slot, slot.state
    requires slot.state != null && slot.state.Valid()
    ensures |s| == slot.state.Member(f).len
    ensures s <= slot.state.Member(f).data
  {
    var r := slot.GetRequest();
    StrNew(r.Member(f))
  }

  /** The setter that `NGX_MRUBY_DEFINE_METHOD_NGX_SET_REQUEST_MEMBER_STR`
      generates, for the field `f`. `nil` leaves everything alone; a string makes
      the field alias the string's buffer with length `strlen + 1`. Either way the
      receiver is returned. The slot is only read once `arg` is known not to be nil. */
  method SetMember(slot: RequestSlot, f: Field, self: MrbValue, arg: MrbValue) returns (ret: MrbValue)
    requires !arg.Obj?
    requires arg.Str? ==> slot.state != null
    modifies slot.state
    ensures ret == self
    ensures arg.Nil? && slot.state != null ==> unchanged(slot.state)
    ensures arg.Str? ==> slot.state.Member(f) == PointAt(StrPtr(arg.bytes))
    ensures arg.Str? ==> forall g: Field :: g != f ==> slot.state.Member(g) == old(slot.state.Member(g))
    ensures arg.Str? ==> slot.state.headersIn == old(slot.state.headersIn)
    ensures old(slot.state != null && slot.state.Valid()) ==> slot.state.Valid()
  {
    if arg.Nil? {
      return self;
    }
    var str := StrPtr(arg.bytes);
    var r := slot.GetRequest();
    StrLenAppendZero(arg.bytes);
    r.Assign(f, NgxStr(str, StrLen(str) + 1));
    return self;
  }

  /** A setter's field always stays within its buffer: the terminator mruby
      appends is found at the latest at the end. */
  lemma PointAtValid(s: seq<byte>)
    ensures PointAt(StrPtr(s)).Valid()
    ensures PointAt(StrPtr(s)).len == StrLen(s) + 1
  {
    StrLenAppendZero(s);
  }

  /** Reading a field back after setting it to `s` yields the bytes of `s` up to
      its first zero byte, followed by one zero byte: not `s` itself. */
  lemma SetThenGet(s: seq<byte>)
    ensures PointAt(StrPtr(s)).Valid()
    ensures StrNew(PointAt(StrPtr(s))) == CStr(s) + [0]
  {
    PointAtValid(s);
    var n := StrLen(s);
    var buf := StrPtr(s);
    assert buf[..n] == s[..n];
    if n < |s| {
      assert buf[n] == s[n];
    }
    assert buf[..n + 1] == buf[..n] + [buf[n]];
  }

  /** For a string without zero bytes, the read-back is the string plus a trailing zero. */
  lemma SetThenGetNoZero(s: seq<byte>)
    requires 0 !in s
    ensures PointAt(StrPtr(s)).Valid()
    ensures StrNew(PointAt(StrPtr(s))) == s + [0]
  {
    SetThenGet(s);
    assert forall j :: 0 <= j < |s| ==> s[j] != 0;
  }

  /** The read-back equals what was written exactly when the written string's
      only zero byte is its last byte. */
  lemma SetThenGetRoundTrip(s: seq<byte>)
    ensures PointAt(StrPtr(s)).Valid()
    ensures StrNew(PointAt(StrPtr(s))) == s <==>
            (|s| > 0 && s[|s| - 1] == 0 && 0 !in s[..|s| - 1])
  {
    SetThenGet(s);
    var n := StrLen(s);
    if StrNew(PointAt(StrPtr(s))) == s {
      assert |s| == n + 1;
      assert s[..n] == CStr(s);
      assert s[|s| - 1] == (CStr(s) + [0])[n];
    }
    if |s| > 0 && s[|s| - 1] == 0 && 0 !in s[..|s| - 1] {
      assert forall j :: 0 <= j < |s| - 1 ==> s[j] == s[..|s| - 1][j];
      StrLenIsFirstZero(s, |s| - 1);
      assert s == s[..|s| - 1] + [0];
    }
  }

  /** A getter's copy and a C-string scan of the same field agree exactly when
      the recorded length is the position of the first zero byte; a zero byte
      inside the recorded length is kept by the getter and cut by the scan. */
  lemma StrNewVersusCStr(m: NgxStr)
    requires m.Valid()
    ensures StrNew(m) == CStr(m.data) <==> StrLen(m.data) == m.len
    ensures forall k :: 0 <= k < m.len && m.data[k] == 0 ==> StrNew(m)[k] == 0 && |CStr(m.data)| <= k
  {
  }

  /** A usage example: with `method_name` "GET" and `uri` "/x" installed, the
      method getter yields "GET"; after `uri = "/y"` the uri getter yields "/y"
      with a trailing zero byte, and `method = nil` changes nothing. */
  method Scenario(slot: RequestSlot, r: Request, self: MrbValue)
    requires r.Valid()
    requires r.methodName == NgxStr([71, 69, 84], 3)   // "GET"
    requires r.uri == NgxStr([47, 120], 2)              // "/x"
    modifies slot, r
  {
    var rc := slot.PushRequest(r);
    assert rc == NGX_OK;
    assert GetMember(slot, Method) == [71, 69, 84];
    assert GetMember(slot, Uri) == [47, 120];
    var ret := SetMember(slot, Uri, self, Str([47, 121]));   // "/y"
    assert ret == self;
    SetThenGetNoZero([47, 121]);
    assert GetMember(slot, Uri) == [47, 121, 0];
    assert GetMember(slot, Method) == [71, 69, 84];
    ret := SetMember(slot, Method, self, Nil);
    assert GetMember(slot, Method) == [71, 69, 84];
  }
}
