/** The reverse proxy: the request director with its Host override, and the
    response hook that runs the substitutions. */
module Proxy {
  import opened Base
  import opened Regex
  import opened Http
  import opened Substitute

  /** The parts of a URL a director reads or writes. */
  datatype Url = Url(scheme: string, host: string, path: string, rawQuery: string)

  /** The fields of an outgoing *http.Request a director may change. */
  datatype RequestFields = RequestFields(host: string, url: Url, header: Header)

  /** An outgoing request, changed in place by the directors. */
  class Request {
    var host: string
    var url: Url
    var header: Header

    constructor (f: RequestFields)
      ensures Fields() == f
    {
      host := f.host;
      url := f.url;
      header := f.header;
    }

    function Fields(): RequestFields
      reads this
    {
      RequestFields(host, url, header)
    }
  }

  /** The director httputil.NewSingleHostReverseProxy builds for a target.
      What it does is outside the model: any change to the request fields. */
  type Director = RequestFields -> RequestFields

  /** The request fields after filterRequest: the original director's
      result, with Host forced to the override when one is set. */
  function Directed(od: Director, host: string, f: RequestFields): (g: RequestFields)
    ensures host != "" ==> g.host == host
    ensures host == "" ==> g == od(f)
    ensures g.url == od(f).url && g.header == od(f).header
  {
    if host != "" then od(f).(host := host) else od(f)
  }

  /** With an override, the Host the original director chose is irrelevant:
      two directors that differ only in Host give the same request. */
  lemma OverrideHidesDirectorHost(od1: Director, od2: Director, host: string, f: RequestFields)
    requires host != ""
    requires od1(f).url == od2(f).url && od1(f).header == od2(f).header
    ensures Directed(od1, host, f) == Directed(od2, host, f)
  {
  }

  /** What ReverseProxy.Director is set to. */
  datatype DirectorHook = Library(director: Director) | FilterRequestOf(p: Proxy)

  /** What ReverseProxy.ModifyResponse is set to. */
  datatype ResponseHook = NoHook | FilterResponseOf(p: Proxy)

  /** httputil.ReverseProxy, reduced to its two hooks. */
  class ReverseProxy {
    var director: DirectorHook
    var modifyResponse: ResponseHook

    /** httputil.NewSingleHostReverseProxy: the library's director for the
        target, and no response hook. */
    constructor (od: Director)
      ensures director == Library(od) && modifyResponse == NoHook
    {
      director := Library(od);
      modifyResponse := NoHook;
    }
  }

  class Proxy {
    const proxy: ReverseProxy
    const host: string
    const subst: seq<SubstGroup>
    const od: Director

    /** newProxy. `od` is the director NewSingleHostReverseProxy builds for
        `u`; the proxy keeps it and installs its own hooks in its place. */
    constructor (u: Url, subst: seq<SubstGroup>, od: Director)
      ensures host == u.host && this.subst == subst && this.od == od
      ensures fresh(proxy)
      ensures proxy.director == FilterRequestOf(this) && proxy.modifyResponse == FilterResponseOf(this)
    {
      var rp := new ReverseProxy(od);
      proxy := rp;
      host := u.host;
      this.subst := subst;
      this.od := od;
      new;
      rp.director := FilterRequestOf(this);
      rp.modifyResponse := FilterResponseOf(this);
    }

    /** Proxy.filterRequest: the original director, then the Host override. */
    method FilterRequest(r: Request)
      modifies r
      ensures r.Fields() == Directed(od, host, old(r.Fields()))
    {
      var f := od(r.Fields());
      r.host := f.host;
      r.url := f.url;
      r.header := f.header;
      if host != "" {
        r.host := host;
      }
    }

    /** Proxy.filterResponse: Rewrite's effect and error, unchanged. Timing
        and the access log are not modelled. */
    method FilterResponse(eng: Engine, parse: MediaTypeParser, r: Response) returns (err: Option<Error>)
      requires AllGroupsPrepared(eng, subst)
      modifies r
      ensures Rewrote(r, RewriteOutcome(eng, Views(subst), MediaType(parse, old(r.header)), r.path, old(r.body)), err)
      ensures err.Some? <==> RewriteOutcome(eng, Views(subst), MediaType(parse, old(r.header)), r.path, old(r.body)).ReadFailed?
    {
      err := Rewrite(eng, parse, subst, r);
      if err != None {
        return err;
      }
      return None;
    }
  }
}
