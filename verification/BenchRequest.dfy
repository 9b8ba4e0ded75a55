/** build_request in place: webbench's globals, and the request appended piece by piece. */
module BenchRequest {
  import opened CStrings
  import opened HttpLines
  import opened Webbench
  import opened Wrappers

  /** atoi of the port, 80 for 0. */
  function PortOf(url: string): int
    requires Find(url, SCHEME_END) < |url| && PlacesOf(url).colon < PlacesOf(url).slash
  {
    var p := PlacesOf(url);
    var port := AtolToInt(url[p.colon + 1..p.slash]);
    if port == 0 then 80 else port
  }

  /** The port in a URL is the number written there, and 80 where that is 0. */
  lemma PortRead(host: string, n: nat, path: string)
    requires PlainUrl(host, ":" + IntText(n), path) && IsInt(n)
    ensures var url := "http://" + (host + (":" + IntText(n)) + path);
            && Find(url, SCHEME_END) < |url| && PlacesOf(url).colon < PlacesOf(url).slash
            && PortOf(url) == if n == 0 then 80 else n
  {
    var port := ":" + IntText(n);
    var url := "http://" + (host + port + path);
    hide Find, HasPrefixNoCase, IntText, AtolToInt, First, PlainUrl;
    PlainParts(host, port, path);
    SchemeFound(host + port + path);
    UrlBytes(url, "http://", host, port, path);
    MarksFound(url, 7, 7 + |host|, 7 + |host| + |port|);
    assert url[8 + |host|..7 + |host| + |port|] == IntText(n);
    AtolOfIntText(n);
  }

  lemma AnyVersion(o: Options, version: int, url: string)
    ensures Outcome(o.(http10 := version), url) == Outcome(o, url)
  {
  }

  class Bench {
    const meth: BenchMethod
    const force_reload: bool
    const proxyhost: Option<string>
    var http10: int
    var proxyport: int
    var host: string
    var request: string

    constructor (o: Options, port: int)
      ensures Settings() == o && proxyport == port && host == "" && request == ""
    {
      meth, force_reload, proxyhost := o.meth, o.forceReload, o.proxyhost;
      http10, proxyport, host, request := o.http10, port, "", "";
    }

    function Settings(): Options
      reads this
    {
      Options(http10, meth, force_reload, proxyhost)
    }

    method strcat(s: string)
      modifies this`request
      ensures request == old(request) + s
    {
      request := request + s;
    }

    method adjust_version()
      modifies this`http10
      ensures http10 == Protocol(old(Settings()))
      ensures Protocol(Settings()) == http10
    {
      if force_reload && proxyhost.Some? && http10 < 1 {
        http10 := 1;
      }
      if meth == METHOD_HEAD && http10 < 1 {
        http10 := 1;
      }
      if meth == METHOD_OPTIONS && http10 < 2 {
        http10 := 2;
      }
      if meth == METHOD_TRACE && http10 < 2 {
        http10 := 2;
      }
    }

    method put_method()
      modifies this`request
      ensures request == MethodName(meth) + " "
    {
      match meth {
        case METHOD_GET => request := "GET";
        case METHOD_HEAD => request := "HEAD";
        case METHOD_OPTIONS => request := "OPTIONS";
        case METHOD_TRACE => request := "TRACE";
      }
      strcat(" ");
    }

    /** The checks of the url, in order. */
    method check_url(url: string) returns (r: Built)
      ensures r == OK ==> Find(url, SCHEME_END) < |url| && |url| <= MAX_URL
      ensures r == OK ==> PlacesOf(url).slash < |url| && Outcome(Settings(), url) in {OK, OVERRUN}
      ensures r != OK ==> r == Outcome(Settings(), url)
    {
      var scheme := Find(url, SCHEME_END);
      if scheme == |url| {
        return NOT_A_URL;
      }
      if |url| > 1500 {
        return TOO_LONG;
      }
      if proxyhost.None? && !HasPrefixNoCase(url, "http://") {
        return ONLY_HTTP;
      }
      if First(url, PlacesOf(url).start, IsSlash) == |url| {
        return NO_SLASH;
      }
      return OK;
    }

    /** Host and port out of the url; OVERRUN where strncpy would leave no NUL behind. */
    method copy_host(url: string) returns (r: Built)
      requires Find(url, SCHEME_END) < |url| && PlacesOf(url).slash < |url| && proxyhost.None?
      modifies this`host, this`proxyport
      ensures r == OK <==> HostEnd(PlacesOf(url)) - PlacesOf(url).start < MAXHOSTNAMELEN
                           && (PlacesOf(url).colon < PlacesOf(url).slash ==>
                                 PlacesOf(url).slash - PlacesOf(url).colon - 1 < PORT_BUFFER)
      ensures r == OK || r == OVERRUN
      ensures r == OK ==> host == HostOf(url)
      ensures r == OK ==> proxyport == if PlacesOf(url).colon < PlacesOf(url).slash then PortOf(url) else old(proxyport)
    {
      hide Find, First, PlacesOf, AtolToInt;
      var p := PlacesOf(url);
      if p.colon < p.slash {
        if p.colon - p.start >= MAXHOSTNAMELEN || p.slash - p.colon - 1 >= PORT_BUFFER {
          return OVERRUN;
        }
        host := url[p.start..p.colon];
        var tmp := url[p.colon + 1..p.slash];
        proxyport := AtolToInt(tmp);
        if proxyport == 0 {
          proxyport := 80;
        }
      } else {
        if p.slash - p.start >= MAXHOSTNAMELEN {
          return OVERRUN;
        }
        host := url[p.start..p.slash];
      }
      return OK;
    }

    /** Host and port, and what is asked for: the path, or the whole url of a proxy. */
    method put_target(url: string) returns (r: Built)
      requires Find(url, SCHEME_END) < |url| && PlacesOf(url).slash < |url|
      requires Outcome(Settings(), url) in {OK, OVERRUN}
      modifies this`host, this`proxyport, this`request
      ensures r == Outcome(Settings(), url)
      ensures r == OK ==> request == old(request) + if proxyhost.None? then url[PlacesOf(url).slash..] else url
      ensures r == OK ==> host == if proxyhost.None? then HostOf(url) else old(host)
      ensures r == OK ==> proxyport == if proxyhost.None? && PlacesOf(url).colon < PlacesOf(url).slash then PortOf(url)
                                       else old(proxyport)
    {
      hide Find, First, PlacesOf, HostEnd, HostOf, HasPrefixNoCase, PortOf;
      r := OK;
      if proxyhost.None? {
        r := copy_host(url);
        if r == OK {
          strcat(url[PlacesOf(url).slash..]);
        }
      } else {
        strcat(url);
      }
    }

    /** The end of the request line and the first field. */
    method put_version()
      modifies this`request
      ensures request == old(request) + VersionText(http10) + CRLF + When(http10 > 0, USER_AGENT + CRLF)
    {
      ghost var r0 := request;
      if http10 == 1 {
        strcat(" HTTP/1.0");
      } else if http10 == 2 {
        strcat(" HTTP/1.1");
      }
      assert request == r0 + VersionText(http10);
      strcat(CRLF);
      ghost var r := request;
      if http10 > 0 {
        strcat(USER_AGENT + CRLF);
      }
      assert request == r + When(http10 > 0, USER_AGENT + CRLF);
    }

    method put_host()
      modifies this`request
      ensures request == old(request) + When(proxyhost.None? && http10 > 0, "Host: " + host + CRLF)
    {
      if proxyhost.None? && http10 > 0 {
        strcat("Host: ");
        strcat(host);
        strcat(CRLF);
      }
    }

    method put_end()
      modifies this`request
      ensures request == old(request)
                         + When(force_reload && proxyhost.Some?, "Pragma: no-cache" + CRLF)
                         + When(http10 > 1, "Connection: close" + CRLF)
                         + When(http10 > 0, CRLF)
    {
      ghost var r0 := request;
      if force_reload && proxyhost.Some? {
        strcat("Pragma: no-cache" + CRLF);
      }
      assert request == r0 + When(force_reload && proxyhost.Some?, "Pragma: no-cache" + CRLF);
      ghost var r1 := request;
      if http10 > 1 {
        strcat("Connection: close" + CRLF);
      }
      assert request == r1 + When(http10 > 1, "Connection: close" + CRLF);
      ghost var r2 := request;
      if http10 > 0 {
        strcat(CRLF);
      }
      assert request == r2 + When(http10 > 0, CRLF);
    }

    /** The outcome, and for OK the whole request, the host and the port. */
    method build_request(url: string) returns (r: Built)
      modifies this
      ensures http10 == Protocol(old(Settings()))
      ensures r == Outcome(old(Settings()), url)
      ensures r == OK ==> request == RequestText(old(Settings()), url) && |request| < REQUEST_SIZE
      ensures r == OK ==> host == if proxyhost.None? then HostOf(url) else ""
      ensures r == OK ==> proxyport == if proxyhost.None? && PlacesOf(url).colon < PlacesOf(url).slash then PortOf(url)
                                       else old(proxyport)
    {
      hide Find, First, PlacesOf, HostEnd, HostOf, HasPrefixNoCase, VersionText, MethodName, Protocol, PortOf, Outcome;
      host, request := "", "";
      adjust_version();
      AnyVersion(old(Settings()), http10, url);
      put_method();
      r := check_url(url);
      if r != OK {
        return;
      }
      r := put_target(url);
      if r != OK {
        return;
      }
      put_version();
      put_host();
      put_end();
      RequestFits(old(Settings()), url);
    }
  }
}
