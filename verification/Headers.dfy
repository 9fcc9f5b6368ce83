/** HTTP request headers: values by canonical name, changed in place on the way to the backend. */
module Headers {
  import opened Text

  type HeaderMap = map<string, seq<string>>

  /** The first value, or "". */
  function Get(h: HeaderMap, name: string): string {
    if name in h && h[name] != [] then h[name][0] else ""
  }

  function Set(h: HeaderMap, name: string, value: string): HeaderMap {
    h[name := [value]]
  }

  function Del(h: HeaderMap, name: string): HeaderMap {
    h - {name}
  }

  /** A request as a value. */
  datatype RequestView = RequestView(
    httpMethod: string, path: string, host: string, remoteHost: string,
    query: map<string, string>, headers: HeaderMap)

  class Request {
    const httpMethod: string
    const path: string
    const host: string
    const remoteHost: string
    const query: map<string, string>
    var headers: HeaderMap

    constructor (v: RequestView)
      ensures View() == v
    {
      httpMethod, path, host, remoteHost, query := v.httpMethod, v.path, v.host, v.remoteHost, v.query;
      headers := v.headers;
    }

    function View(): RequestView
      reads this
    {
      RequestView(httpMethod, path, host, remoteHost, query, headers)
    }

    function HeaderValue(name: string): string
      reads this
    {
      Get(headers, name)
    }

    method SetHeader(name: string, value: string)
      modifies this`headers
      ensures headers == Set(old(headers), name, value)
    {
      headers := headers[name := [value]];
    }

    method DelHeader(name: string)
      modifies this`headers
      ensures headers == Del(old(headers), name)
    {
      headers := headers - {name};
    }
  }

  /** The first non-blank part of a comma-separated list. */
  function FirstPart(list: string): string
    decreases |list|
  {
    var i := IndexOf(list, ',');
    var part := TrimSpace(list[..i]);
    if part != "" || i == |list| then part else FirstPart(list[i + 1..])
  }

  /** The client's address: first forwarded-for part, then real-ip, then the peer. */
  function ClientIp(r: RequestView): string {
    var forwarded := FirstPart(Get(r.headers, "X-Forwarded-For"));
    var realIp := TrimSpace(Get(r.headers, "X-Real-Ip"));
    if forwarded != "" then forwarded else if realIp != "" then realIp else r.remoteHost
  }

  /** The list up to a comma counts if it is not blank, and otherwise what follows the comma. */
  lemma FirstPartMeaning(part: string, rest: string)
    requires ',' !in part
    ensures FirstPart(part) == TrimSpace(part)
    ensures FirstPart(part + "," + rest) == if TrimSpace(part) != "" then TrimSpace(part) else FirstPart(rest)
  {
    var s := part + "," + rest;
    FirstCut(part, ',', rest);
    assert part + [','] + rest == s;
    assert s[..|part|] == part && s[|part| + 1..] == rest;
    NoCut(part, ',');
    assert part[..|part|] == part;
  }

  /** Whose address counts: the first of the forwarded-for list that is not blank, else the real-ip
      header if it is not blank, else the peer. */
  lemma ClientIpMeaning(r: RequestView)
    ensures var header := (name: string) =>
              if name in r.headers && r.headers[name] != [] then r.headers[name][0] else "";
            var listed, single := FirstPart(header("X-Forwarded-For")), TrimSpace(header("X-Real-Ip"));
            && (listed != "" ==> ClientIp(r) == listed)
            && (listed == "" && single != "" ==> ClientIp(r) == single)
            && (listed == "" && single == "" ==> ClientIp(r) == r.remoteHost)
  {
  }
}
