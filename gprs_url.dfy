/**
 * How the cellular HTTP client takes a request URL apart into the host it connects to,
 * the port and the path it sends in the request line.
 */
module GprsUrl {
  import opened Wrappers
  import opened Text

  /** Size of the host and path buffers, terminator included (`API_URL_MAX_LEN`). */
  const GPRS_MAX_HOST_LEN: nat := 257
  const GPRS_MAX_PATH_LEN: nat := 257

  datatype Target = Target(host: string, port: int, path: string)

  /** `strchr(s + from, c)` as an index: the first `c` at or after `from`, or -1. */
  function Find(s: string, c: char, from: nat): (r: int)
    ensures r == -1 || (from <= r < |s| && s[r] == c)
    ensures r != -1 ==> forall j :: from <= j < r ==> s[j] != c
    ensures r == -1 ==> forall j :: from <= j < |s| ==> s[j] != c
    decreases |s| - from
  {
    if from >= |s| then -1 else if s[from] == c then from else Find(s, c, from + 1)
  }

  /**
   * The URL split of `startAsyncHttpRequest`: the host runs from just after the first
   * `://` to the first `/` or `:` after it, the port is the number after that `:` when it
   * comes before the first `/`, else 443 for a URL starting with `https` and 80 otherwise,
   * and the path runs from the first `/` to the end (`/` when there is none).  A URL
   * without `://`, or whose host or path does not fit its buffer, is refused.
   */
  function SplitUrl(url: string): Option<Target>
  {
    var protocolEnd := IndexOf(url, "://", 0);
    if protocolEnd == -1 then None
    else
      var hostStart := protocolEnd + 3;
      SplitAfterScheme(url, hostStart, Find(url, '/', hostStart), Find(url, ':', hostStart))
  }

  /** The rest of the split, once the host start and the first `/` and `:` after it are known. */
  function SplitAfterScheme(url: string, hostStart: nat, slash: int, colon: int): Option<Target>
    requires hostStart <= |url|
    requires slash == -1 || hostStart <= slash < |url|
    requires colon == -1 || hostStart <= colon < |url|
  {
    var hostEnd := HostEnd(url, slash, colon);
    if hostEnd - hostStart >= GPRS_MAX_HOST_LEN then None
    else if slash != -1 && |url| - slash >= GPRS_MAX_PATH_LEN then None
    else
      var path := if slash != -1 then url[slash..] else "/";
      Some(Target(url[hostStart..hostEnd], PortOf(url, slash, colon), path))
  }

  /** The host ends at the first `/` or `:`, whichever comes first, else at the end of the URL. */
  function HostEnd(url: string, slash: int, colon: int): (r: int)
    requires slash == -1 || 0 <= slash < |url|
    requires colon == -1 || 0 <= colon < |url|
    ensures 0 <= r <= |url|
    ensures slash != -1 ==> r <= slash
    ensures colon != -1 ==> r <= colon
    ensures r == |url| || r == slash || r == colon
  {
    var hostEnd0 := if slash != -1 then slash else |url|;
    if colon != -1 && colon < hostEnd0 then colon else hostEnd0
  }

  /** The string starts with `https`. */
  predicate IsHttps(s: string)
  {
    |s| >= 5 && s[..5] == "https"
  }

  /** The port: the number after a `:` that comes before the path, else the scheme's default. */
  function PortOf(url: string, slash: int, colon: int): int
    requires colon == -1 || 0 <= colon < |url|
  {
    if colon != -1 && (slash == -1 || colon < slash) then ToInt(url[colon + 1..])
    else if IsHttps(url) then 443
    else 80
  }

  /** What a successful split guarantees about its parts. */
  lemma SplitUrlShape(url: string)
    requires SplitUrl(url).Some?
    ensures var t := SplitUrl(url).value;
      Contains(url, "://") &&
      |t.host| < GPRS_MAX_HOST_LEN && |t.path| < GPRS_MAX_PATH_LEN &&
      '/' !in t.host && ':' !in t.host &&
      |t.path| > 0 && t.path[0] == '/' && (EndsWith(url, t.path) || t.path == "/")
  {
    var hostStart := IndexOf(url, "://", 0) + 3;
    ShapeAfterScheme(url, hostStart, Find(url, '/', hostStart), Find(url, ':', hostStart));
  }

  lemma ShapeAfterScheme(url: string, hostStart: nat, slash: int, colon: int)
    requires hostStart <= |url|
    requires slash == -1 || hostStart <= slash < |url|
    requires colon == -1 || hostStart <= colon < |url|
    requires slash != -1 ==> url[slash] == '/' && forall j :: hostStart <= j < slash ==> url[j] != '/'
    requires slash == -1 ==> forall j :: hostStart <= j < |url| ==> url[j] != '/'
    requires colon != -1 ==> url[colon] == ':' && forall j :: hostStart <= j < colon ==> url[j] != ':'
    requires colon == -1 ==> forall j :: hostStart <= j < |url| ==> url[j] != ':'
    requires SplitAfterScheme(url, hostStart, slash, colon).Some?
    ensures var t := SplitAfterScheme(url, hostStart, slash, colon).value;
      |t.host| < GPRS_MAX_HOST_LEN && |t.path| < GPRS_MAX_PATH_LEN &&
      '/' !in t.host && ':' !in t.host &&
      |t.path| > 0 && t.path[0] == '/' && (EndsWith(url, t.path) || t.path == "/")
  {
    var hostEnd := HostEnd(url, slash, colon);
    var host := url[hostStart..hostEnd];
    forall i | 0 <= i < |host|
      ensures host[i] != '/' && host[i] != ':'
    {
      assert host[i] == url[hostStart + i];
    }
    if slash != -1 {
      assert url[slash..][0] == '/';
      assert url[|url| - |url[slash..]|..] == url[slash..];
    }
  }

  /** A URL without `://` is refused. */
  lemma NoSchemeRefused(url: string)
    requires !Contains(url, "://")
    ensures SplitUrl(url) == None
  {
  }

  /** The URL that a scheme, host, optional port and path make. */
  function ComposeUrl(scheme: string, host: string, port: Option<nat>, path: string): string
    requires port.Some? ==> port.value <= LONG_MAX
  {
    scheme + "://" + host +
    (match port case Some(p) => ":" + Numeral(p, 10) case None => "") +
    path
  }

  /** In a URL whose scheme has no `:`, the first `://` is the one after the scheme. */
  lemma SchemeSeparator(scheme: string, tail: string)
    requires ':' !in scheme
    ensures IndexOf(scheme + "://" + tail, "://", 0) == |scheme|
  {
    var url := scheme + "://" + tail;
    var k := |scheme|;
    assert url[k..k + 3] == "://";
    forall j | 0 <= j < k
      ensures !OccursAt(url, "://", j)
    {
      assert url[j] == scheme[j];
      if j + 3 <= |url| {
        assert url[j..j + 3][0] == url[j];
      }
    }
    IndexOfFirst(url, "://", 0, k);
  }

  /** The URL starts with `https` exactly when its scheme does. */
  lemma SchemePrefix(scheme: string, tail: string)
    requires ':' !in scheme
    ensures IsHttps(scheme + "://" + tail) <==> IsHttps(scheme)
  {
    var url := scheme + "://" + tail;
    if |scheme| >= 5 {
      assert url[..5] == scheme[..5];
    } else if |url| >= 5 {
      assert url[..5][|scheme|] == ':';
    }
  }

  /**
   * Splitting a composed URL: a host or a path of 257 characters or more is refused;
   * otherwise the split gives back the host, the explicit port or else the scheme's
   * default port, and the path, or `/` when the URL has none.
   */
  lemma SplitComposed(scheme: string, host: string, port: Option<nat>, path: string)
    requires ':' !in scheme
    requires '/' !in host && ':' !in host
    requires |path| == 0 || path[0] == '/'
    requires port.Some? ==> port.value <= LONG_MAX
    ensures SplitUrl(ComposeUrl(scheme, host, port, path)) ==
      if |host| >= GPRS_MAX_HOST_LEN || |path| >= GPRS_MAX_PATH_LEN then None
      else Some(Target(host,
                       match port case Some(p) => p case None => (if IsHttps(scheme) then 443 else 80),
                       if |path| == 0 then "/" else path))
  {
    var fits := |host| < GPRS_MAX_HOST_LEN && |path| < GPRS_MAX_PATH_LEN;
    match port
    case Some(p) =>
      var tail := host + ":" + Numeral(p, 10) + path;
      assert ComposeUrl(scheme, host, port, path) == scheme + "://" + tail;
      if !fits {
        NumeralHasNoSlash(p);
        SplitComposedRefused(scheme, host, Numeral(p, 10), path);
      } else if |path| == 0 {
        SplitComposedPortOnly(scheme, host, p);
      } else {
        SplitComposedWithPort(scheme, host, p, path);
      }
    case None =>
      var tail := host + path;
      assert ComposeUrl(scheme, host, port, path) == scheme + "://" + tail;
      if !fits {
        SplitComposedRefused(scheme, host, "", path);
      } else if |path| == 0 {
        SplitComposedHostOnly(scheme, host);
      } else {
        SplitComposedWithoutPort(scheme, host, path);
      }
  }

  /** The split of a composed URL is the split after its scheme's `://`. */
  lemma SplitAfterComposedScheme(scheme: string, tail: string, r: Option<Target>)
    requires ':' !in scheme
    requires var url := scheme + "://" + tail;
      SplitAfterScheme(url, |scheme| + 3, Find(url, '/', |scheme| + 3), Find(url, ':', |scheme| + 3)) == r
    ensures SplitUrl(scheme + "://" + tail) == r
  {
    SchemeSeparator(scheme, tail);
    SplitUrlAt(scheme + "://" + tail, |scheme|);
  }

  /** A composed URL whose host or path does not fit its buffer is refused. */
  lemma SplitComposedRefused(scheme: string, host: string, digits: string, path: string)
    requires ':' !in scheme
    requires '/' !in host && ':' !in host && '/' !in digits
    requires |path| == 0 || path[0] == '/'
    requires |host| >= GPRS_MAX_HOST_LEN || |path| >= GPRS_MAX_PATH_LEN
    ensures SplitUrl(scheme + "://" + (host + ":" + digits + path)) == None
    ensures |digits| == 0 ==> SplitUrl(scheme + "://" + (host + path)) == None
  {
    var tail := host + ":" + digits + path;
    var url := scheme + "://" + tail;
    assert url[|scheme| + 3..] == tail;
    RefusedAfterScheme(url, |scheme| + 3, host, ":" + digits, path);
    SplitAfterComposedScheme(scheme, tail, None);
    if |digits| == 0 {
      var tail' := host + path;
      var url' := scheme + "://" + tail';
      assert url'[|scheme| + 3..] == host + "" + path;
      RefusedAfterScheme(url', |scheme| + 3, host, "", path);
      SplitAfterComposedScheme(scheme, tail', None);
    }
  }

  /**
   * After the scheme, a host, an optional `:` with port text, and a path that is empty or
   * starts with `/`: a host or a path too long for its buffer is refused.
   */
  lemma RefusedAfterScheme(url: string, hs: nat, host: string, portText: string, path: string)
    requires '/' !in host && ':' !in host && '/' !in portText
    requires |portText| == 0 || portText[0] == ':'
    requires |path| == 0 || path[0] == '/'
    requires |host| >= GPRS_MAX_HOST_LEN || |path| >= GPRS_MAX_PATH_LEN
    requires hs <= |url| && url[hs..] == host + portText + path
    ensures SplitAfterScheme(url, hs, Find(url, '/', hs), Find(url, ':', hs)) == None
  {
    var at := hs + |host|;
    var ps := at + |portText|;
    var tail := url[hs..];
    assert tail == host + (portText + path);
    assert |url| == ps + |path|;
    forall j | hs <= j < ps
      ensures url[j] != '/'
    {
      assert url[j] == tail[j - hs];
    }
    forall j | hs <= j < at
      ensures url[j] != ':'
    {
      assert url[j] == tail[j - hs];
    }
    var slash := Find(url, '/', hs);
    var colon := Find(url, ':', hs);
    if |path| > 0 {
      assert url[ps] == tail[ps - hs];
      FindFirst(url, '/', hs, ps);
    } else {
      FindNone(url, '/', hs);
    }
    if |portText| > 0 {
      assert url[at] == tail[|host|];
      FindFirst(url, ':', hs, at);
    } else {
      assert colon == -1 || colon >= ps;
    }
    assert HostEnd(url, slash, colon) == at;
  }

  /** `scheme://host:port` with no path: the path is `/`. */
  lemma SplitComposedPortOnly(scheme: string, host: string, p: nat)
    requires ':' !in scheme
    requires '/' !in host && ':' !in host && |host| < GPRS_MAX_HOST_LEN
    requires p <= LONG_MAX
    ensures SplitUrl(scheme + "://" + (host + ":" + Numeral(p, 10) + "")) == Some(Target(host, p, "/"))
  {
    var digits := Numeral(p, 10);
    var tail := host + ":" + digits + "";
    var url := scheme + "://" + tail;
    var hs := |scheme| + 3;
    var at := hs + |host|;
    assert SplitAfterScheme(url, hs, Find(url, '/', hs), Find(url, ':', hs)) == Some(Target(host, p, "/")) by {
      assert url[hs..] == tail;
      NumeralHasNoSlash(p);
      PortOnlySearch(url, hs, host, digits);
      SplitPortOnly(url, hs, at, host, p);
      SplitAtFound(url, hs, -1, at, Some(Target(host, p, "/")));
    }
    SplitAfterComposedScheme(scheme, tail, Some(Target(host, p, "/")));
  }

  /** Where the `:` falls, and that no `/` follows, in a host, `:` and port digits. */
  lemma PortOnlySearch(url: string, hs: nat, host: string, digits: string)
    requires '/' !in host && ':' !in host && '/' !in digits
    requires hs <= |url| && url[hs..] == host + ":" + digits + ""
    ensures hs + |host| < |url|
    ensures Find(url, '/', hs) == -1 && Find(url, ':', hs) == hs + |host|
    ensures url[hs..hs + |host|] == host && url[hs + |host| + 1..] == digits
  {
    var at := hs + |host|;
    var tail := url[hs..];
    assert tail == host + (":" + digits);
    forall j | hs <= j < |url|
      ensures url[j] != '/'
    {
      assert url[j] == tail[j - hs];
    }
    FindNone(url, '/', hs);
    forall j | hs <= j < at
      ensures url[j] != ':'
    {
      assert url[j] == tail[j - hs];
    }
    assert url[at] == tail[|host|];
    FindFirst(url, ':', hs, at);
    assert url[hs..at] == tail[..|host|];
    assert url[at + 1..] == tail[|host| + 1..];
  }

  /** The split when the port's `:` at `at` is followed by the port digits and no `/`. */
  lemma SplitPortOnly(url: string, hs: nat, at: nat, host: string, p: nat)
    requires hs <= at < |url| && at - hs < GPRS_MAX_HOST_LEN && p <= LONG_MAX
    requires url[hs..at] == host && url[at + 1..] == Numeral(p, 10)
    ensures SplitAfterScheme(url, hs, -1, at) == Some(Target(host, p, "/"))
  {
    assert url[at + 1..] == Numeral(p, 10) + "";
    ToIntNumeral(url[at + 1..], p, "");
  }

  /** `scheme://host` with no port and no path: the scheme's default port and the path `/`. */
  lemma SplitComposedHostOnly(scheme: string, host: string)
    requires ':' !in scheme
    requires '/' !in host && ':' !in host && |host| < GPRS_MAX_HOST_LEN
    ensures SplitUrl(scheme + "://" + (host + "")) ==
      Some(Target(host, if IsHttps(scheme) then 443 else 80, "/"))
  {
    var tail := host + "";
    var url := scheme + "://" + tail;
    var hs := |scheme| + 3;
    assert url[hs..] == host;
    assert |url| == hs + |host|;
    HostRun(url, host, hs);
    FindNone(url, '/', hs);
    FindNone(url, ':', hs);
    SchemePrefix(scheme, tail);
    SplitAfterComposedScheme(scheme, tail, Some(Target(host, if IsHttps(scheme) then 443 else 80, "/")));
  }

  /** A decimal numeral holds no `/`. */
  lemma NumeralHasNoSlash(p: nat)
    ensures '/' !in Numeral(p, 10)
  {
    var digits := Numeral(p, 10);
    forall i | 0 <= i < |digits|
      ensures digits[i] != '/'
    {
      assert IsDigitIn(digits[i], 10);
    }
  }

  /** `Find` gives -1 when the character does not occur. */
  lemma FindNone(s: string, c: char, from: nat)
    requires forall j :: from <= j < |s| ==> s[j] != c
    ensures Find(s, c, from) == -1
  {
  }

  lemma SplitComposedWithPort(scheme: string, host: string, p: nat, path: string)
    requires ':' !in scheme
    requires '/' !in host && ':' !in host && |host| < GPRS_MAX_HOST_LEN
    requires |path| > 0 && path[0] == '/' && |path| < GPRS_MAX_PATH_LEN
    requires p <= LONG_MAX
    ensures SplitUrl(scheme + "://" + (host + ":" + Numeral(p, 10) + path)) == Some(Target(host, p, path))
  {
    var tail := host + ":" + Numeral(p, 10) + path;
    var url := scheme + "://" + tail;
    SchemeSeparator(scheme, tail);
    SplitUrlAt(url, |scheme|);
    assert url[|scheme| + 3..] == tail;
    SplitWithPort(url, |scheme| + 3, host, p, path);
  }

  lemma SplitComposedWithoutPort(scheme: string, host: string, path: string)
    requires ':' !in scheme
    requires '/' !in host && ':' !in host && |host| < GPRS_MAX_HOST_LEN
    requires |path| > 0 && path[0] == '/' && |path| < GPRS_MAX_PATH_LEN
    ensures SplitUrl(scheme + "://" + (host + path)) ==
      Some(Target(host, if IsHttps(scheme) then 443 else 80, path))
  {
    var tail := host + path;
    var url := scheme + "://" + tail;
    var defaultPort := if IsHttps(scheme) then 443 else 80;
    assert defaultPort == if IsHttps(url) then 443 else 80 by {
      SchemePrefix(scheme, tail);
    }
    assert SplitUrl(url) == Some(Target(host, defaultPort, path)) by {
      SchemeSeparator(scheme, tail);
      SplitUrlAt(url, |scheme|);
      assert url[|scheme| + 3..] == tail;
      SplitWithoutPort(url, |scheme| + 3, host, path);
    }
  }

  /** Once the first `://` is known, the split is the split after it. */
  lemma SplitUrlAt(url: string, k: nat)
    requires IndexOf(url, "://", 0) == k
    ensures k + 3 <= |url|
    ensures SplitUrl(url) == SplitAfterScheme(url, k + 3, Find(url, '/', k + 3), Find(url, ':', k + 3))
  {
  }

  lemma SplitWithPort(url: string, hs: nat, host: string, p: nat, path: string)
    requires '/' !in host && ':' !in host && |host| < GPRS_MAX_HOST_LEN
    requires |path| > 0 && path[0] == '/' && |path| < GPRS_MAX_PATH_LEN
    requires p <= LONG_MAX
    requires hs <= |url| && url[hs..] == host + ":" + Numeral(p, 10) + path
    ensures SplitAfterScheme(url, hs, Find(url, '/', hs), Find(url, ':', hs)) == Some(Target(host, p, path))
  {
    var digits := Numeral(p, 10);
    assert '/' !in digits by {
      forall i | 0 <= i < |digits|
        ensures digits[i] != '/'
      {
        assert IsDigitIn(digits[i], 10);
      }
    }
    var at := hs + |host|;
    var ps := at + 1 + |digits|;
    HostPortSearch(url, hs, host, digits, path);
    HostPortSlices(url, hs, host, digits, path);
    SplitWithExplicitPort(url, hs, at, ps, host, p, path);
    SplitAtFound(url, hs, ps, at, Some(Target(host, p, path)));
  }

  /** The split after the scheme is the split at wherever `Find` puts the first `/` and `:`. */
  lemma SplitAtFound(url: string, hs: nat, slash: int, colon: int, r: Option<Target>)
    requires hs <= |url|
    requires slash == -1 || hs <= slash < |url|
    requires colon == -1 || hs <= colon < |url|
    requires Find(url, '/', hs) == slash && Find(url, ':', hs) == colon
    requires SplitAfterScheme(url, hs, slash, colon) == r
    ensures SplitAfterScheme(url, hs, Find(url, '/', hs), Find(url, ':', hs)) == r
  {
  }

  /** The host, the port text and the path as slices of the URL. */
  lemma HostPortSlices(url: string, hs: nat, host: string, digits: string, path: string)
    requires hs <= |url| && url[hs..] == host + ":" + digits + path && |path| > 0
    ensures hs + |host| + 1 + |digits| < |url|
    ensures url[hs..hs + |host|] == host
    ensures url[hs + |host| + 1..] == digits + path
    ensures url[hs + |host| + 1 + |digits|..] == path
  {
    var at := hs + |host|;
    var ps := at + 1 + |digits|;
    var tail := url[hs..];
    assert tail == host + (":" + (digits + path));
    assert tail[..|host|] == host;
    assert tail[|host| + 1..] == digits + path;
    assert tail[|host| + 1 + |digits|..] == path;
    assert url[hs..at] == tail[..|host|];
    assert url[at + 1..] == tail[|host| + 1..];
    assert url[ps..] == tail[|host| + 1 + |digits|..];
  }

  /** Where the `:` and the first `/` fall in a host, `:`, port digits and path. */
  lemma HostPortSearch(url: string, hs: nat, host: string, digits: string, path: string)
    requires '/' !in host && ':' !in host && '/' !in digits
    requires |path| > 0 && path[0] == '/'
    requires hs <= |url| && url[hs..] == host + ":" + digits + path
    ensures Find(url, ':', hs) == hs + |host|
    ensures Find(url, '/', hs) == hs + |host| + 1 + |digits|
  {
    var at := hs + |host|;
    var ps := at + 1 + |digits|;
    var tail := url[hs..];
    assert tail == host + (":" + (digits + path));
    forall j | hs <= j < ps
      ensures url[j] != '/'
    {
      assert url[j] == tail[j - hs];
    }
    assert url[at] == tail[|host|];
    assert url[ps] == tail[|host| + 1 + |digits|];
    FindFirst(url, '/', hs, ps);
    forall j | hs <= j < at
      ensures url[j] != ':'
    {
      assert url[j] == tail[j - hs];
    }
    FindFirst(url, ':', hs, at);
  }

  /** The split when the port's `:` at `at` comes before the first `/` at `ps`. */
  lemma SplitWithExplicitPort(url: string, hs: nat, at: nat, ps: nat, host: string, p: nat, path: string)
    requires hs <= at < ps < |url|
    requires at - hs < GPRS_MAX_HOST_LEN && |url| - ps < GPRS_MAX_PATH_LEN
    requires p <= LONG_MAX && |path| > 0 && path[0] == '/'
    requires url[hs..at] == host && url[at + 1..] == Numeral(p, 10) + path && url[ps..] == path
    ensures SplitAfterScheme(url, hs, ps, at) == Some(Target(host, p, path))
  {
    ToIntNumeral(url[at + 1..], p, path);
  }

  lemma SplitWithoutPort(url: string, hs: nat, host: string, path: string)
    requires '/' !in host && ':' !in host && |host| < GPRS_MAX_HOST_LEN
    requires |path| > 0 && path[0] == '/' && |path| < GPRS_MAX_PATH_LEN
    requires hs <= |url| && url[hs..] == host + path
    ensures SplitAfterScheme(url, hs, Find(url, '/', hs), Find(url, ':', hs)) ==
      Some(Target(host, if IsHttps(url) then 443 else 80, path))
  {
    var ps := hs + |host|;
    assert url[hs..ps] == host;
    assert url[ps..] == path;
    HostRun(url, host, hs);
    FindFirst(url, '/', hs, ps);
    var colon := Find(url, ':', hs);
    assert colon == -1 || colon > ps;
  }

  /** The host of a composed URL holds neither `/` nor `:`. */
  lemma HostRun(url: string, host: string, hs: nat)
    requires hs + |host| <= |url| && url[hs..hs + |host|] == host
    requires '/' !in host && ':' !in host
    ensures forall j :: hs <= j < hs + |host| ==> url[j] != '/' && url[j] != ':'
  {
    forall j | hs <= j < hs + |host|
      ensures url[j] != '/' && url[j] != ':'
    {
      assert url[j] == host[j - hs];
    }
  }

  /** `Find` finds a character when none comes earlier. */
  lemma FindFirst(s: string, c: char, from: nat, k: nat)
    requires from <= k < |s| && s[k] == c
    requires forall j :: from <= j < k ==> s[j] != c
    ensures Find(s, c, from) == k
  {
  }
}
