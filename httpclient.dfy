/** The address split of the HTTP client's constructor: a remote path
    "http://host[:port]/repo" becomes the host, the port ("80" when none
    is given) and the repository path. The source checks the form with
    `assert`; here a malformed address is an error value. */
module HttpClient {
  import opened Wrappers

  const SCHEME: string := "http://"
  const DEFAULT_PORT: string := "80"

  datatype Remote = Remote(host: string, port: string, repo: string)

  datatype AddressError =
    | NotHttp        // the path does not begin with "http://"
    | PortAfterPath  // the first ':' comes after the first '/'
    | NoPath         // there is no '/' after the scheme

  /** std::string::find for one character: the first position of `c`,
      None standing for npos. */
  function Find(s: string, c: char): (r: Option<nat>)
    ensures r.None? <==> c !in s
    ensures r.Some? ==> r.value < |s| && s[r.value] == c
  {
    if s == [] then None
    else if s[0] == c then Some(0)
    else match Find(s[1..], c)
      case None => None
      case Some(i) => Some(i + 1)
  }

  /** The position Find returns is the first one holding `c`. */
  lemma {:induction false} FindFirst(s: string, c: char)
    requires Find(s, c).Some?
    ensures forall k :: 0 <= k < Find(s, c).value ==> s[k] != c
  {
    if s[0] != c {
      FindFirst(s[1..], c);
      forall k | 0 <= k < Find(s, c).value
        ensures s[k] != c
      {
        if k > 0 {
          assert s[k] == s[1..][k - 1];
        }
      }
    }
  }

  /** The text an address has after its scheme. */
  function Join(x: Remote, explicitPort: bool): string
  {
    if explicitPort then x.host + ":" + x.port + "/" + x.repo
    else x.host + "/" + x.repo
  }

  /** The address a remote is written as; the port is spelled out when
      `explicitPort` holds. */
  function Unparse(x: Remote, explicitPort: bool): string
  {
    SCHEME + Join(x, explicitPort)
  }

  /** The remotes an address can spell: a host with neither ':' nor '/'
      and a port without '/'; when the port is not written it is the
      default one, and the repository path has no ':' (the first ':'
      would otherwise come after the first '/'). */
  predicate WellFormed(x: Remote, explicitPort: bool)
  {
    && ':' !in x.host && '/' !in x.host
    && (explicitPort ==> '/' !in x.port)
    && (!explicitPort ==> x.port == DEFAULT_PORT && ':' !in x.repo)
  }

  /** HttpClient::HttpClient: strips the scheme, then cuts the rest at its
      first ':' and its first '/'. */
  function ParseRemote(remotePath: string): (r: Result<Remote, AddressError>)
    ensures r == Err(NotHttp) <==> !(SCHEME <= remotePath)
    ensures r.Ok? ==> var explicitPort := ':' in remotePath[|SCHEME|..];
                      WellFormed(r.value, explicitPort) && Unparse(r.value, explicitPort) == remotePath
    ensures r == Err(NoPath) <==> SCHEME <= remotePath && '/' !in remotePath[|SCHEME|..]
    ensures r == Err(PortAfterPath) <==> SCHEME <= remotePath && PathBeforePort(remotePath[|SCHEME|..])
  {
    if !(SCHEME <= remotePath) then Err(NotHttp)
    else
      var tmp := remotePath[|SCHEME|..];
      assert remotePath == SCHEME + tmp;
      SplitRestSpec(tmp);
      SplitRest(tmp)
  }

  /** Both separators are present and the first '/' comes before the first ':'. */
  predicate PathBeforePort(tmp: string)
  {
    Find(tmp, ':').Some? && Find(tmp, '/').Some? && Find(tmp, '/').value < Find(tmp, ':').value
  }

  /** The constructor after the scheme: `tmp` is cut at its first ':' and
      its first '/'. */
  function SplitRest(tmp: string): Result<Remote, AddressError>
  {
    var pathPos := Find(tmp, '/');
    match Find(tmp, ':')
    case Some(portPos) =>
      if pathPos.Some? && portPos >= pathPos.value then Err(PortAfterPath)
      else if pathPos.None? then Err(NoPath)
      else Ok(Remote(tmp[..portPos], tmp[portPos + 1..pathPos.value], tmp[pathPos.value + 1..]))
    case None =>
      if pathPos.None? then Err(NoPath)
      else Ok(Remote(tmp[..pathPos.value], DEFAULT_PORT, tmp[pathPos.value + 1..]))
  }

  /** What SplitRest guarantees: a successful split puts the pieces back
      together to `tmp`, and each error names what is missing. */
  lemma SplitRestSpec(tmp: string)
    ensures SplitRest(tmp) != Err(NotHttp)
    ensures SplitRest(tmp).Ok? ==>
              WellFormed(SplitRest(tmp).value, ':' in tmp) && Join(SplitRest(tmp).value, ':' in tmp) == tmp
    ensures SplitRest(tmp) == Err(NoPath) <==> '/' !in tmp
    ensures SplitRest(tmp) == Err(PortAfterPath) <==> PathBeforePort(tmp)
  {
    match Find(tmp, ':')
    case Some(i) => SplitRestColon(tmp, i);
    case None => SplitRestNoColon(tmp);
  }

  /** SplitRestSpec when `tmp` holds a ':' at `i`. */
  lemma SplitRestColon(tmp: string, i: nat)
    requires Find(tmp, ':') == Some(i)
    ensures SplitRest(tmp) != Err(NotHttp)
    ensures SplitRest(tmp).Ok? ==>
              WellFormed(SplitRest(tmp).value, true) && Join(SplitRest(tmp).value, true) == tmp
    ensures SplitRest(tmp) == Err(NoPath) <==> '/' !in tmp
    ensures SplitRest(tmp) == Err(PortAfterPath) <==> PathBeforePort(tmp)
  {
    var pathPos := Find(tmp, '/');
    if pathPos.Some? && i < pathPos.value {
      FindFirst(tmp, ':');
      FindFirst(tmp, '/');
      SplitWithPort(tmp, i, pathPos.value);
    }
  }

  /** SplitRestSpec when `tmp` holds no ':'. */
  lemma SplitRestNoColon(tmp: string)
    requires Find(tmp, ':').None?
    ensures SplitRest(tmp).Err? <==> SplitRest(tmp) == Err(NoPath)
    ensures SplitRest(tmp) == Err(NoPath) <==> '/' !in tmp
    ensures SplitRest(tmp).Ok? ==>
              WellFormed(SplitRest(tmp).value, false) && Join(SplitRest(tmp).value, false) == tmp
  {
    var pathPos := Find(tmp, '/');
    if pathPos.Some? {
      FindFirst(tmp, '/');
      SplitWithoutPort(tmp, pathPos.value);
    }
  }

  lemma SplitWithPort(tmp: string, i: nat, j: nat)
    requires i < j < |tmp| && tmp[i] == ':' && tmp[j] == '/'
    requires forall k :: 0 <= k < i ==> tmp[k] != ':'
    requires forall k :: 0 <= k < j ==> tmp[k] != '/'
    ensures WellFormed(Remote(tmp[..i], tmp[i + 1..j], tmp[j + 1..]), true)
    ensures Join(Remote(tmp[..i], tmp[i + 1..j], tmp[j + 1..]), true) == tmp
  {
    assert tmp == tmp[..i] + ":" + tmp[i + 1..j] + "/" + tmp[j + 1..];
  }

  lemma SplitWithoutPort(tmp: string, j: nat)
    requires j < |tmp| && tmp[j] == '/' && ':' !in tmp
    requires forall k :: 0 <= k < j ==> tmp[k] != '/'
    ensures WellFormed(Remote(tmp[..j], DEFAULT_PORT, tmp[j + 1..]), false)
    ensures Join(Remote(tmp[..j], DEFAULT_PORT, tmp[j + 1..]), false) == tmp
  {
    assert tmp == tmp[..j] + "/" + tmp[j + 1..];
    assert forall k :: j < k < |tmp| ==> tmp[j + 1..][k - j - 1] == tmp[k];
  }

  /** A position holding `c` with no `c` before it is what Find returns. */
  lemma FindIs(s: string, c: char, i: nat)
    requires i < |s| && s[i] == c
    requires forall k :: 0 <= k < i ==> s[k] != c
    ensures Find(s, c) == Some(i)
  {
    var j := Find(s, c).value;
    FindFirst(s, c);
    assert !(j < i) && !(i < j);
  }

  /** Every well-formed remote is read back from its address. */
  lemma {:induction false} ParseUnparse(x: Remote, explicitPort: bool)
    requires WellFormed(x, explicitPort)
    ensures ParseRemote(Unparse(x, explicitPort)) == Ok(x)
  {
    var s := Unparse(x, explicitPort);
    var tmp := Join(x, explicitPort);
    assert s[|SCHEME|..] == tmp;
    if explicitPort {
      SplitRestWithPort(x);
    } else {
      SplitRestWithoutPort(x);
    }
  }

  lemma SplitRestWithPort(x: Remote)
    requires WellFormed(x, true)
    ensures SplitRest(Join(x, true)) == Ok(x)
  {
    FindsWithPort(x);
    JoinWithPortPieces(x);
    SplitRestOf(x, Join(x, true));
  }

  lemma FindsWithPort(x: Remote)
    requires WellFormed(x, true)
    ensures Find(Join(x, true), ':') == Some(|x.host|)
    ensures Find(Join(x, true), '/') == Some(|x.host| + 1 + |x.port|)
  {
    JoinWithPortSeparators(x);
    FindIs(Join(x, true), ':', |x.host|);
    FindIs(Join(x, true), '/', |x.host| + 1 + |x.port|);
  }

  /** SplitRest cuts at the positions Find reports. */
  lemma SplitRestOf(x: Remote, t: string)
    requires Find(t, ':') == Some(|x.host|) && Find(t, '/') == Some(|x.host| + 1 + |x.port|)
    requires Remote(t[..|x.host|], t[|x.host| + 1..|x.host| + 1 + |x.port|], t[|x.host| + 1 + |x.port| + 1..]) == x
    ensures SplitRest(t) == Ok(x)
  {
  }

  /** In an address with a port, the separators are the first ':' and the
      first '/'. */
  lemma JoinWithPortSeparators(x: Remote)
    requires WellFormed(x, true)
    ensures var t, i, j := Join(x, true), |x.host|, |x.host| + 1 + |x.port|;
            && i < j < |t| && t[i] == ':' && t[j] == '/'
            && (forall k :: 0 <= k < i ==> t[k] != ':')
            && (forall k :: 0 <= k < j ==> t[k] != '/')
  {
    var t := Join(x, true);
    var i := |x.host|;
    var j := |x.host| + 1 + |x.port|;
    assert t == x.host + ":" + x.port + "/" + x.repo;
    assert forall k :: 0 <= k < i ==> t[k] == x.host[k];
    assert forall k :: i < k < j ==> t[k] == x.port[k - i - 1];
  }

  lemma JoinWithPortPieces(x: Remote)
    ensures var t, i, j := Join(x, true), |x.host|, |x.host| + 1 + |x.port|;
            Remote(t[..i], t[i + 1..j], t[j + 1..]) == x
  {
    var t := Join(x, true);
    assert t == x.host + ":" + x.port + "/" + x.repo;
    assert t[..|x.host|] == x.host;
  }

  lemma SplitRestWithoutPort(x: Remote)
    requires WellFormed(x, false)
    ensures SplitRest(Join(x, false)) == Ok(x)
  {
    var t := Join(x, false);
    var j := |x.host|;
    assert t == x.host + "/" + x.repo;
    assert forall k :: 0 <= k < j ==> t[k] == x.host[k];
    FindIs(t, '/', j);
    assert forall k :: j < k < |t| ==> t[k] == x.repo[k - j - 1];
    assert t[..j] == x.host;
    assert t[j + 1..] == x.repo;
  }
}
