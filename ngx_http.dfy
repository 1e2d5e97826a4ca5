/** The parts of nginx's request representation that the mruby binding touches. */
module NgxHttp {
  import opened CStrings

  /** An `ngx_str_t`: `data` stands for every byte readable from the pointer onward,
      `len` for the recorded length. Nothing ties `len` to a zero byte. */
  datatype NgxStr = NgxStr(data: seq<byte>, len: nat) {
    /** The recorded length stays within the readable bytes. */
    predicate Valid() {
      len <= |data|
    }
  }

  /** An `ngx_table_elt_t`, reduced to the key and the value. */
  datatype TableElt = TableElt(key: NgxStr, value: NgxStr)

  datatype Option<T> = None | Some(value: T)

  /** An `ngx_list_part_t`: the slot array `elts` (its full capacity), the used
      count `nelts`, and the nullable link to the next part. */
  datatype ListPart = ListPart(elts: seq<TableElt>, nelts: nat, next: Option<ListPart>)

  /** The seven string fields that have accessors. */
  datatype Field =
    | RequestLine   // r->request_line
    | Uri           // r->uri
    | UnparsedUri   // r->unparsed_uri
    | Method        // r->method_name
    | Protocol      // r->http_protocol
    | Args          // r->args
    | ContentType   // r->headers_out.content_type

  /** An `ngx_http_request_t`, reduced to the fields the binding reads or writes. */
  class Request {
    var requestLine: NgxStr
    var uri: NgxStr
    var unparsedUri: NgxStr
    var methodName: NgxStr
    var httpProtocol: NgxStr
    var args: NgxStr
    var contentType: NgxStr   // headers_out.content_type
    var headersIn: ListPart   // headers_in.headers.part, the first part of the list

    /** The field a selector names. */
    function Member(f: Field): (m: NgxStr)
      reads this
    {
      match f
      case RequestLine => requestLine
      case Uri => uri
      case UnparsedUri => unparsedUri
      case Method => methodName
      case Protocol => httpProtocol
      case Args => args
      case ContentType => contentType
    }

    /** Every accessor field can be copied out without reading past its bytes. */
    ghost predicate Valid()
      reads this
    {
      forall f: Field :: Member(f).Valid()
    }

    /** Stores `m` in the field `f` names; nothing else changes. */
    method Assign(f: Field, m: NgxStr)
      modifies this
      ensures Member(f) == m
      ensures forall g: Field :: g != f ==> Member(g) == old(Member(g))
      ensures headersIn == old(headersIn)
    {
      match f
      case RequestLine => requestLine := m;
      case Uri => uri := m;
      case UnparsedUri => unparsedUri := m;
      case Method => methodName := m;
      case Protocol => httpProtocol := m;
      case Args => args := m;
      case ContentType => contentType := m;
    }
  }
}
