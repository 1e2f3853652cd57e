/** The parts of a parsed URL the program reads, and the host-name rule shared
    by the archive and download file names. Parsing and resolution themselves
    (`new URL(...)`) are not modelled: they are passed in as functions. */
module Url {
  import opened Js
  import opened Text

  /** What `new URL(s)` exposes that the program uses. */
  datatype UrlParts = UrlParts(hostname: string, pathname: string)

  /** `new URL(s)`: `None` when the constructor throws. */
  type Parser = string -> Option<UrlParts>

  /** `new URL(href, base).toString()`: `None` when the constructor throws. */
  type Resolver = (string, string) -> Option<string>

  const WwwPrefix: string := "www."

  /** `hostname.replace(/^www\./, '')`. */
  function StripWww(host: string): string {
    if StartsWith(host, WwwPrefix) then host[|WwwPrefix|..] else host
  }

  /** Exactly one leading `www.` is removed, and a host without that prefix
      is kept as it is; putting the prefix back restores the host. */
  lemma StripWwwSpec(host: string)
    ensures StripWww(WwwPrefix + host) == host
    ensures StartsWith(host, WwwPrefix) ==> WwwPrefix + StripWww(host) == host
    ensures !StartsWith(host, WwwPrefix) ==> StripWww(host) == host
    ensures |StripWww(host)| + (if StartsWith(host, WwwPrefix) then 4 else 0) == |host|
  {
    assert (WwwPrefix + host)[..|WwwPrefix|] == WwwPrefix;
    assert (WwwPrefix + host)[|WwwPrefix|..] == host;
    if StartsWith(host, WwwPrefix) {
      assert host == host[..4] + host[4..];
    }
  }
}
