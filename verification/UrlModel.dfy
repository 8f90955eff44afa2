/**
  What HttpUrl::Builder's Parse and ToString compute, as functions on the builder's fields.
  Positions are mathematical here; the class in HttpUrl.dfy works with size_t, npos and
  wrap-around and is proved to agree.
 */
module UrlModel {
  import opened Text
  import opened PathSegments
  import opened QueryMap

  /** The fields of a Builder. */
  datatype Parts = Parts(scheme: string, host: string, port: int, path: Path, query: Query, fragment: string)

  /** The state Clear() leaves. */
  const CLEARED := Parts("", "", -1, [], map[], "")

  /** Parse returns true, returns false, or lets substr throw std::out_of_range. */
  datatype Outcome = Accepted | Rejected | OutOfRange

  function DefaultPort(scheme: string): int {
    if scheme == "http" then 80 else if scheme == "https" then 443 else -1
  }

  function LowerChar(c: char): char {
    if 'A' <= c <= 'Z' then (c as int + 32) as char else c
  }

  function Lower(s: string): string {
    seq(|s|, i requires 0 <= i < |s| => LowerChar(s[i]))
  }

  // ---------------------------------------------------------------- Parse

  /** Where host and path end: at the first '?', else at the first '#', else at the end. */
  function EndOfPath(t: string): (end: nat)
    ensures end <= |t|
  {
    var q := Find(t, '?');
    if q < |t| then q else Find(t, '#')
  }

  /** Host, port and path; an end before the start counts as none, since the length wraps around. */
  function HostPath(t: string, start: nat): string
    requires start <= |t|
  {
    var end := EndOfPath(t);
    if end < start then t[start..] else t[start..end]
  }

  function HostOf(hostPath: string): string {
    var colon := Find(hostPath, ':');
    if colon < |hostPath| then hostPath[..colon] else hostPath[..Find(hostPath, '/')]
  }

  function PortText(hostPath: string): string {
    var colon, slash := Find(hostPath, ':'), Find(hostPath, '/');
    if colon == |hostPath| then ""
    else if colon < slash then hostPath[colon + 1..slash]
    else hostPath[colon + 1..]
  }

  function PortOf(scheme: string, hostPath: string): int {
    var text := PortText(hostPath);
    if text == "" then DefaultPort(scheme) else Atoi(text)
  }

  /** Without a '/' the whole text, host and port included, is taken for the path. */
  function PathOf(hostPath: string): Path {
    var slash := Find(hostPath, '/');
    AddSegments([], if slash < |hostPath| then hostPath[slash + 1..] else hostPath)
  }

  function QueryText(t: string): string {
    var q, f := Find(t, '?'), Find(t, '#');
    if q == |t| then "" else t[q + 1..if q < f then f else |t|]
  }

  function FragmentText(t: string): string {
    var f := Find(t, '#');
    if f == |t| then "" else t[f + 1..]
  }

  /** The fields that are read off a text with a known scheme. */
  function Assemble(scheme: string, hostPath: string, t: string): Parts {
    Parts(scheme, HostOf(hostPath), PortOf(scheme, hostPath), PathOf(hostPath),
          ReadQuery(QueryText(t)), FragmentText(t))
  }

  function ParseBody(scheme: string, t: string): (Outcome, Parts) {
    var start := |scheme| + 3;
    if |t| < start then (OutOfRange, CLEARED.(scheme := scheme))
    else if HostPath(t, start) == "" then (Rejected, CLEARED.(scheme := scheme))
    else (Accepted, Assemble(scheme, HostPath(t, start), t))
  }

  function ParseTrimmed(t: string): (Outcome, Parts) {
    var scheme := Lower(t[..Find(t, ':')]);
    if scheme != "http" && scheme != "https" then (Rejected, CLEARED) else ParseBody(scheme, t)
  }

  function Parse(before: Parts, url: string): (Outcome, Parts) {
    if |url| <= 7 then (Rejected, before) else ParseTrimmed(TrimBlanks(url))
  }

  // ---------------------------------------------------------------- ToString

  function HostText(host: string): string {
    if ':' in host then "[" + host + "]" else host
  }

  function EffectivePort(b: Parts): int {
    if b.port == -1 then DefaultPort(b.scheme) else b.port
  }

  function Authority(b: Parts): string {
    HostText(b.host) + ":" + Decimal(EffectivePort(b))
  }

  ghost function QueryPart(m: Query): string {
    if m == map[] then "" else "?" + PrintQuery(m)
  }

  function FragmentPart(fragment: string): string {
    if fragment == "" then "" else "#" + fragment
  }

  ghost function Print(b: Parts): string {
    b.scheme + "://" + (Authority(b) + PrintPath(b.path)) + (QueryPart(b.query) + FragmentPart(b.fragment))
  }

  // ---------------------------------------------------------------- the accessors of HttpUrl

  /** From the first '/' after the scheme to the end of the path. */
  function EncodedPath(url: string, scheme: string): (Outcome, string) {
    if |url| < |scheme| + 3 then (OutOfRange, "") else
      var slash, end := FindFrom(url, '/', |scheme| + 3), EndOfPath(url);
      if slash == |url| then (OutOfRange, "")
      else (Accepted, if end < slash then url[slash..] else url[slash..end])
  }

  function EncodedQuery(url: string): string {
    QueryText(url)
  }
}
