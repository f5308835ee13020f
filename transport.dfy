/** The request layer under the loader: the status test for a finished request
    and the ordered list of request constructors tried until one works. */
module Transport {

  /** `_isHttpRequestSuccessful(status)`, with the page protocol passed in. The
      loader calls it on `xhr.status || 0`; a missing status is 0 here. */
  function IsHttpRequestSuccessful(status: int, protocol: string): (ok: bool)
    ensures 200 <= status < 300 || status == 304 || status == 1223 ==> ok
    ensures ok && status != 0 ==> 200 <= status < 300 || status == 304 || status == 1223
    ensures ok && status == 0 ==> protocol in {"file:", "chrome:"}
  {
    || (200 <= status < 300)
    || status == 304
    || status == 1223
    || (status == 0 && (protocol == "file:" || protocol == "chrome:"))
  }

  /** A reported status decides by itself; the protocol only matters when no status came back. */
  lemma ProtocolMattersOnlyWithoutStatus(status: int, p1: string, p2: string)
    requires status != 0
    ensures IsHttpRequestSuccessful(status, p1) == IsHttpRequestSuccessful(status, p2)
  {
  }

  /** Without a status, the request counts as successful exactly on a local page. */
  lemma MissingStatusSucceedsOnlyLocally(protocol: string)
    ensures IsHttpRequestSuccessful(0, protocol) <==> protocol in {"file:", "chrome:"}
  {
  }

  /** Client and server errors, redirects other than 304, and informational codes all fail. */
  lemma ErrorClassesFail(status: int, protocol: string)
    requires 100 <= status < 200 || (300 <= status < 600 && status != 304)
    ensures !IsHttpRequestSuccessful(status, protocol)
  {
  }

  /** The constructors `_createXmlHttpRequest` tries, in order. */
  const Strategies: seq<string> :=
    ["XMLHttpRequest", "Msxml2.XMLHTTP.6.0", "Msxml2.XMLHTTP.3.0", "Msxml2.XMLHTTP", "Microsoft.XMLHTTP"]

  /** The outcome of the ladder: the index of the constructor that worked, or the
      fatal 'browser does not support XMLHttpRequest' error. */
  datatype Acquired = Handle(strategy: nat) | Unsupported

  /** Tries `Strategies[from..]` in order against the set of constructors the
      browser supports; the first that works wins. */
  function FirstSupported(supports: set<string>, from: nat): (r: Acquired)
    requires from <= |Strategies|
    ensures r.Handle? ==> from <= r.strategy < |Strategies| && Strategies[r.strategy] in supports
    ensures r.Handle? ==> forall j :: from <= j < r.strategy ==> Strategies[j] !in supports
    ensures r.Unsupported? <==> forall j :: from <= j < |Strategies| ==> Strategies[j] !in supports
    decreases |Strategies| - from
  {
    if from == |Strategies| then Unsupported
    else if Strategies[from] in supports then Handle(from)
    else FirstSupported(supports, from + 1)
  }

  /** `_createXmlHttpRequest`: the nested try/catch ladder over the five constructors. */
  function CreateXmlHttpRequest(supports: set<string>): (r: Acquired)
    ensures r.Handle? ==> r.strategy < |Strategies| && Strategies[r.strategy] in supports
    ensures r.Handle? ==> forall j :: 0 <= j < r.strategy ==> Strategies[j] !in supports
    ensures r.Unsupported? <==> forall j :: 0 <= j < |Strategies| ==> Strategies[j] !in supports
  {
    FirstSupported(supports, 0)
  }
}
