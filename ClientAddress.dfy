/** Best-effort extraction of the requester's network address from request
    headers, used before hashing for the per-network vote check. */
module ClientAddress {
  import opened JsText

  /** Request headers by lower-case name; an absent name is a `null` lookup. */
  type Headers = map<string, string>

  const ForwardedFor: string := "x-forwarded-for"
  const RealIp: string := "x-real-ip"
  const Loopback: string := "127.0.0.1"

  /** The first hop of `x-forwarded-for`, trimmed; empty when the header is
      absent or its first comma-separated entry is blank. */
  function ForwardedClient(headers: Headers): string
  {
    if ForwardedFor in headers then Trim(SplitFirst(headers[ForwardedFor], ',')) else ""
  }

  /** `getClientIp`: the forwarded client if there is one, else a non-empty
      `x-real-ip`, else the loopback address. Each `||` falls through on an
      empty string as well as on a missing header. */
  function ClientIp(headers: Headers): (ip: string)
    ensures ip != ""
    ensures ForwardedClient(headers) != "" ==> ip == ForwardedClient(headers)
    ensures ForwardedClient(headers) == "" ==>
              (RealIp in headers && headers[RealIp] != "" ==> ip == headers[RealIp])
    ensures ForwardedClient(headers) == "" ==>
              (RealIp !in headers || headers[RealIp] == "" ==> ip == Loopback)
  {
    var forwarded := ForwardedClient(headers);
    if forwarded != "" then forwarded
    else if RealIp in headers && headers[RealIp] != "" then headers[RealIp]
    else Loopback
  }

  /** An address taken from `x-forwarded-for` is a single hop: it holds no
      comma, has no surrounding white space, and every character in it comes
      from the header. */
  lemma ForwardedAddressIsOneHop(headers: Headers)
    requires ForwardedClient(headers) != ""
    ensures ForwardedFor in headers
    ensures ',' !in ClientIp(headers)
    ensures !IsTrimmable(ClientIp(headers)[0]) && !IsTrimmable(ClientIp(headers)[|ClientIp(headers)| - 1])
    ensures forall c :: c in ClientIp(headers) ==> c in headers[ForwardedFor]
  {
    assert ClientIp(headers) == Trim(SplitFirst(headers[ForwardedFor], ','));
    TrimmedFirstField(headers[ForwardedFor], ',');
  }

  /** The result is always one of three things: the loopback address, the
      `x-real-ip` header unchanged, or a hop taken from `x-forwarded-for`. */
  lemma ClientIpOrigin(headers: Headers)
    ensures var ip := ClientIp(headers);
      || ip == Loopback
      || (RealIp in headers && ip == headers[RealIp])
      || (ForwardedFor in headers && ip == Trim(SplitFirst(headers[ForwardedFor], ',')))
  {
  }
}
