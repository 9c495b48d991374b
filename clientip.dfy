/** `get_client_ip`: the client address the views log. */
module ClientIp {
  import opened Wrappers
  import opened PyStr

  /** The two `request.META` entries the function reads; `None` for a missing key. */
  datatype Meta = Meta(forwardedFor: Option<string>, remoteAddr: Option<string>)

  /** `x_forwarded_for.split(',')[-1]`. */
  function LastForwardedEntry(forwardedFor: string): string
  {
    var parts := Split(forwardedFor, ',');
    parts[|parts| - 1]
  }

  /**
   * `get_client_ip(request)`: the last comma-separated `X-Forwarded-For`
   * entry when that header is present and non-empty, else `REMOTE_ADDR`,
   * stripped of surrounding whitespace. `None` stands for the
   * `AttributeError` raised by `None.strip()` when neither is there.
   */
  function GetClientIp(meta: Meta): Option<string>
  {
    if meta.forwardedFor.Some? && meta.forwardedFor.value != "" then
      Some(Strip(LastForwardedEntry(meta.forwardedFor.value)))
    else
      match meta.remoteAddr
      case Some(addr) => Some(Strip(addr))
      case None => None
  }

  /**
   * With a non-empty header, the result is the stripped text after the
   * header's last comma: it holds no comma and no surrounding whitespace,
   * and the header ends with it, up to whitespace.
   */
  lemma ForwardedForGivesLastEntry(meta: Meta)
    requires meta.forwardedFor.Some? && meta.forwardedFor.value != ""
    ensures var h := meta.forwardedFor.value; var last := LastForwardedEntry(h);
      GetClientIp(meta) == Some(Strip(last)) &&
      |last| <= |h| && last == h[|h| - |last|..] &&
      (|last| < |h| ==> h[|h| - |last| - 1] == ',') &&
      ',' !in Strip(last)
  {
    var h := meta.forwardedFor.value;
    LastPieceIsSuffixAfterLastSep(h, ',');
    StripAddsNoChar(LastForwardedEntry(h), ',');
  }

  /** Without the header, `REMOTE_ADDR` is used, and a missing one is the `AttributeError`. */
  lemma RemoteAddrFallback(meta: Meta)
    requires meta.forwardedFor.None? || meta.forwardedFor.value == ""
    ensures GetClientIp(meta).None? <==> meta.remoteAddr.None?
    ensures meta.remoteAddr.Some? ==> GetClientIp(meta) == Some(Strip(meta.remoteAddr.value))
  {
  }

  /** The address returned never starts or ends with whitespace. */
  lemma ClientIpIsStripped(meta: Meta)
    requires (meta.forwardedFor.Some? && meta.forwardedFor.value != "") || meta.remoteAddr.Some?
    ensures Strip(GetClientIp(meta).value) == GetClientIp(meta).value
  {
    if meta.forwardedFor.Some? && meta.forwardedFor.value != "" {
      StripIdempotent(LastForwardedEntry(meta.forwardedFor.value));
    } else {
      StripIdempotent(meta.remoteAddr.value);
    }
  }
}
