/**
 * The request shaping and flair listing of redditclient.py's `RedditClient`.
 *
 * The HTTP transport, the digest-auth handler and the cookie file are
 * outside the model: a request is modelled up to the URL and body it would
 * send, the urlencoding of form data is a parameter, and the listing
 * endpoint is a function from the request it is given to the page it returns.
 */
module RedditClient {
  import opened Wrappers

  /** A cookie of the session's cookie jar; only its name matters here. */
  datatype Cookie = Cookie(name: string, value: string)

  datatype Verb = Get | Post

  /** What `_request` hands to urllib2: the method, the final URL and the body (`None` for GET). */
  datatype HttpRequest = HttpRequest(verb: Verb, url: string, body: Option<string>)

  /** The keyword arguments of `_request`, before urlencoding. */
  type FormData = map<string, string>

  /** One user of a listing page, `(user.get('user'), user.get('flair_text'), user.get('flair_css_class'))`. */
  datatype RemoteEntry = RemoteEntry(user: Option<string>, text: Option<string>, css: Option<string>)

  /** One GET of the flair listing: its URL, `limit` and, when present, `after`. */
  datatype ListingRequest = ListingRequest(url: string, limit: int, after: Option<string>)

  /** A listing response: `result.get('users', [])` and `result.get('next')`. */
  datatype Page = Page(users: seq<RemoteEntry>, next: Option<string>)

  /**
   * What a run of `flair_list` did: the requests it made, the entries it
   * yielded, and whether it stopped because a page came without a cursor
   * (rather than because the page budget ran out).
   */
  datatype Listing = Listing(requests: seq<ListingRequest>, entries: seq<RemoteEntry>, complete: bool)

  const SessionCookie := "reddit_session"

  /** Python truthiness of an optional string: neither `None` nor empty. */
  predicate IsSet(s: Option<string>) {
    s.Some? && s.value != ""
  }

  /** The form data `_request` encodes: `uh` is added from the modhash unless already present. */
  function WithModhash(data: FormData, modhash: Option<string>): (r: FormData)
    ensures forall k :: k in data ==> k in r && r[k] == data[k]
    ensures r.Keys == if IsSet(modhash) then data.Keys + {"uh"} else data.Keys
    ensures IsSet(modhash) && "uh" !in data ==> r["uh"] == modhash.value
  {
    if IsSet(modhash) && "uh" !in data then data["uh" := modhash.value] else data
  }

  /** `path` with a `/` in front unless it already starts with one. */
  function WithLeadingSlash(path: string): (p: string)
    ensures |p| > 0 && p[0] == '/'
    ensures p == path || p == "/" + path
    ensures |path| > 0 && path[0] == '/' ==> p == path
  {
    if |path| > 0 && path[0] == '/' then path else "/" + path
  }

  /** The search of `logged_in`: is there a session cookie at index `i` or later? */
  function HasSessionCookie(cookies: seq<Cookie>, i: nat): bool
    requires i <= |cookies|
    decreases |cookies| - i
  {
    if i == |cookies| then false
    else cookies[i].name == SessionCookie || HasSessionCookie(cookies, i + 1)
  }

  lemma {:induction false} SessionSearch(cookies: seq<Cookie>, i: nat)
    requires i <= |cookies|
    ensures HasSessionCookie(cookies, i) <==> exists j :: i <= j < |cookies| && cookies[j].name == SessionCookie
    decreases |cookies| - i
  {
    if i < |cookies| {
      SessionSearch(cookies, i + 1);
    }
  }

  /**
   * The `while True` loop of `flair_list`, with at most `fuel` requests,
   * starting from the cursor `after`.
   */
  function ListingFrom(fetch: ListingRequest -> Page, url: string, batchSize: int,
                       after: Option<string>, fuel: nat): Listing
    decreases fuel
  {
    if fuel == 0 then Listing([], [], false)
    else
      var request := ListingRequest(url, batchSize, if IsSet(after) then after else None);
      var page := fetch(request);
      if IsSet(page.next) then
        var rest := ListingFrom(fetch, url, batchSize, page.next, fuel - 1);
        Listing([request] + rest.requests, page.users + rest.entries, rest.complete)
      else
        Listing([request], page.users, true)
  }

  /** One pass of the `flair_list` loop: a request, its page, and the rest of the listing when the page has a cursor. */
  lemma ListingStep(fetch: ListingRequest -> Page, url: string, batchSize: int, after: Option<string>, fuel: nat)
    requires fuel > 0
    ensures var request := ListingRequest(url, batchSize, if IsSet(after) then after else None);
      var page := fetch(request);
      var l := ListingFrom(fetch, url, batchSize, after, fuel);
      var rest := ListingFrom(fetch, url, batchSize, page.next, fuel - 1);
      && l.requests == [request] + (if IsSet(page.next) then rest.requests else [])
      && l.entries == page.users + (if IsSet(page.next) then rest.entries else [])
      && l.complete == (if IsSet(page.next) then rest.complete else true)
  {
    var page := fetch(ListingRequest(url, batchSize, if IsSet(after) then after else None));
    if !IsSet(page.next) {
      assert page.users + [] == page.users;
    }
  }

  lemma Associative<T>(a: seq<T>, b: seq<T>, c: seq<T>)
    ensures a + (b + c) == (a + b) + c
  {
  }

  /** The users of the pages the requests return, one page after the other. */
  function PagesUsers(fetch: ListingRequest -> Page, requests: seq<ListingRequest>): seq<RemoteEntry>
  {
    if requests == [] then [] else fetch(requests[0]).users + PagesUsers(fetch, requests[1..])
  }

  /** The users of a sequence of pages, one page after the other. */
  function AllUsers(pages: seq<Page>): seq<RemoteEntry>
  {
    if pages == [] then [] else pages[0].users + AllUsers(pages[1..])
  }

  /**
   * Every request goes to the same URL with `limit` set to the batch size;
   * the first carries the starting cursor (none, for `flair_list`), and
   * each later one the `next` of the page before it, which was set.
   */
  lemma {:induction false} ListingRequests(fetch: ListingRequest -> Page, url: string, batchSize: int,
                                           after: Option<string>, fuel: nat)
    ensures var l := ListingFrom(fetch, url, batchSize, after, fuel);
      && |l.requests| <= fuel
      && (fuel > 0 <==> |l.requests| > 0)
      && (forall k :: 0 <= k < |l.requests| ==> l.requests[k].url == url && l.requests[k].limit == batchSize)
      && (|l.requests| > 0 ==> l.requests[0].after == if IsSet(after) then after else None)
      && (forall k :: 0 <= k < |l.requests| - 1 ==>
            IsSet(fetch(l.requests[k]).next) && l.requests[k + 1].after == fetch(l.requests[k]).next)
    decreases fuel
  {
    if fuel > 0 {
      var request := ListingRequest(url, batchSize, if IsSet(after) then after else None);
      var page := fetch(request);
      if IsSet(page.next) {
        ListingRequests(fetch, url, batchSize, page.next, fuel - 1);
        var rest := ListingFrom(fetch, url, batchSize, page.next, fuel - 1);
        var l := ListingFrom(fetch, url, batchSize, after, fuel);
        assert l.requests == [request] + rest.requests;
        forall k | 0 <= k < |l.requests| - 1
          ensures IsSet(fetch(l.requests[k]).next) && l.requests[k + 1].after == fetch(l.requests[k]).next
        {
          if k == 0 {
            assert l.requests[0] == request && l.requests[1] == rest.requests[0];
          } else {
            assert l.requests[k] == rest.requests[k - 1] && l.requests[k + 1] == rest.requests[k];
          }
        }
      }
    }
  }

  /** The entries are the users of every page fetched, in order. */
  lemma {:induction false} ListingEntries(fetch: ListingRequest -> Page, url: string, batchSize: int,
                                          after: Option<string>, fuel: nat)
    ensures var l := ListingFrom(fetch, url, batchSize, after, fuel);
      l.entries == PagesUsers(fetch, l.requests)
    decreases fuel
  {
    if fuel > 0 {
      var request := ListingRequest(url, batchSize, if IsSet(after) then after else None);
      var page := fetch(request);
      ListingStep(fetch, url, batchSize, after, fuel);
      var l := ListingFrom(fetch, url, batchSize, after, fuel);
      var rest := ListingFrom(fetch, url, batchSize, page.next, fuel - 1);
      if IsSet(page.next) {
        ListingEntries(fetch, url, batchSize, page.next, fuel - 1);
        assert l.requests[0] == request && l.requests[1..] == rest.requests;
      } else {
        assert l.requests[0] == request && l.requests[1..] == [];
        assert page.users + [] == page.users;
      }
    }
  }

  /**
   * The listing is complete exactly when the last page fetched had no
   * cursor; otherwise the page budget was used up.
   */
  lemma {:induction false} ListingComplete(fetch: ListingRequest -> Page, url: string, batchSize: int,
                                           after: Option<string>, fuel: nat)
    ensures var l := ListingFrom(fetch, url, batchSize, after, fuel);
      && (l.complete <==> |l.requests| > 0 && !IsSet(fetch(l.requests[|l.requests| - 1]).next))
      && (!l.complete ==> |l.requests| == fuel)
    decreases fuel
  {
    if fuel > 0 {
      var request := ListingRequest(url, batchSize, if IsSet(after) then after else None);
      var page := fetch(request);
      ListingStep(fetch, url, batchSize, after, fuel);
      var l := ListingFrom(fetch, url, batchSize, after, fuel);
      var rest := ListingFrom(fetch, url, batchSize, page.next, fuel - 1);
      if IsSet(page.next) {
        ListingComplete(fetch, url, batchSize, page.next, fuel - 1);
        assert l.requests == [request] + rest.requests;
        if |rest.requests| > 0 {
          assert l.requests[|l.requests| - 1] == rest.requests[|rest.requests| - 1];
        }
      } else {
        assert l.requests == [request] + [];
      }
    }
  }

  /**
   * A source that serves `pages` in order, each page's cursor leading to the
   * next and the last without one, is read completely: one request per page,
   * all of their users, and nothing after the last.
   */
  lemma ScriptedListing(fetch: ListingRequest -> Page, url: string, batchSize: int,
                        pages: seq<Page>, fuel: nat)
    requires 0 < |pages| <= fuel
    requires fetch(ListingRequest(url, batchSize, None)) == pages[0]
    requires forall k :: 0 <= k < |pages| - 1 ==>
      IsSet(pages[k].next) && fetch(ListingRequest(url, batchSize, pages[k].next)) == pages[k + 1]
    requires !IsSet(pages[|pages| - 1].next)
    ensures var l := ListingFrom(fetch, url, batchSize, None, fuel);
      l.complete && |l.requests| == |pages| && l.entries == AllUsers(pages)
  {
    ScriptedFrom(fetch, url, batchSize, pages, 0, None, fuel);
    assert pages[0..] == pages;
  }

  lemma {:induction false} ScriptedFrom(fetch: ListingRequest -> Page, url: string, batchSize: int,
                                        pages: seq<Page>, i: nat, after: Option<string>, fuel: nat)
    requires i < |pages| && |pages| - i <= fuel
    requires fetch(ListingRequest(url, batchSize, if IsSet(after) then after else None)) == pages[i]
    requires forall k :: 0 <= k < |pages| - 1 ==>
      IsSet(pages[k].next) && fetch(ListingRequest(url, batchSize, pages[k].next)) == pages[k + 1]
    requires !IsSet(pages[|pages| - 1].next)
    ensures var l := ListingFrom(fetch, url, batchSize, after, fuel);
      l.complete && |l.requests| == |pages| - i && l.entries == AllUsers(pages[i..])
    decreases |pages| - i
  {
    var request := ListingRequest(url, batchSize, if IsSet(after) then after else None);
    var page := fetch(request);
    assert page == pages[i];
    var l := ListingFrom(fetch, url, batchSize, after, fuel);
    assert AllUsers(pages[i..]) == pages[i].users + AllUsers(pages[i + 1..]) by {
      assert pages[i..][0] == pages[i] && pages[i..][1..] == pages[i + 1..];
    }
    if i + 1 < |pages| {
      assert IsSet(page.next);
      var rest := ListingFrom(fetch, url, batchSize, page.next, fuel - 1);
      assert l == Listing([request] + rest.requests, page.users + rest.entries, rest.complete);
      ScriptedFrom(fetch, url, batchSize, pages, i + 1, page.next, fuel - 1);
    } else {
      assert l == Listing([request], page.users, true);
      assert pages[i + 1..] == [];
      assert page.users + [] == page.users;
    }
  }

  /** A reddit session: the site's base URL and the state kept across requests. */
  class Client {
    var host: string
    var userAgent: Option<string>
    var modhash: Option<string>
    var cookies: seq<Cookie>

    /**
     * `RedditClient(host, cookie_file, user_agent)`: trailing slashes are
     * stripped from `host`; `jar` is the cookie jar as loaded (empty when
     * there is no cookie file or it does not exist yet).
     */
    constructor (host: string, userAgent: Option<string>, jar: seq<Cookie>)
      ensures |this.host| <= |host| && this.host == host[..|this.host|]
      ensures forall i :: |this.host| <= i < |host| ==> host[i] == '/'
      ensures this.host == "" || this.host[|this.host| - 1] != '/'
      ensures this.userAgent == userAgent && modhash == None && cookies == jar
    {
      var h := host;
      while |h| > 0 && h[|h| - 1] == '/'
        invariant |h| <= |host| && h == host[..|h|]
        invariant forall i :: |h| <= i < |host| ==> host[i] == '/'
        decreases |h|
      {
        h := h[..|h| - 1];
      }
      this.host := h;
      this.userAgent := userAgent;
      modhash := None;
      cookies := jar;
    }

    /** The assignment `log_in` makes once `/api/me` has answered with the session's modhash. */
    method SetModhash(m: string)
      modifies this
      ensures modhash == Some(m)
      ensures host == old(host) && userAgent == old(userAgent) && cookies == old(cookies)
    {
      modhash := Some(m);
    }

    /** `_url(path, sr)`. */
    function Url(path: string, sr: Option<string>): (r: string)
      reads this
      ensures |r| >= 5 && r[|r| - 5..] == ".json"
      ensures IsSet(sr) ==> r == host + "/r/" + sr.value + "/" + WithLeadingSlash(path) + ".json"
      ensures !IsSet(sr) ==> r == host + WithLeadingSlash(path) + ".json"
    {
      var p := WithLeadingSlash(path);
      var prefix := if IsSet(sr) then host + "/r/" + sr.value + "/" else host;
      prefix + p + ".json"
    }

    /** The data and URL shaping of `_request` (reached through `_get` and `_post`). */
    method PrepareRequest(verb: Verb, url: string, data: FormData, urlencode: FormData -> string)
      returns (request: HttpRequest)
      ensures request.verb == verb
      ensures verb == Get ==>
        && request.url == url + (if '?' in url then "&" else "?") + urlencode(WithModhash(data, modhash))
        && request.body == None
      ensures verb == Post ==> request.url == url && request.body == Some(urlencode(WithModhash(data, modhash)))
    {
      var d := data;
      if IsSet(modhash) && "uh" !in d {
        d := d["uh" := modhash.value];
      }
      var encoded := urlencode(d);
      if verb == Get {
        var u := if '?' in url then url + "&" + encoded else url + "?" + encoded;
        request := HttpRequest(verb, u, None);
      } else {
        request := HttpRequest(verb, url, Some(encoded));
      }
    }

    /** The `logged_in` property: some cookie of the jar is the session cookie. */
    function LoggedIn(): (r: bool)
      reads this
      ensures r <==> exists i :: 0 <= i < |cookies| && cookies[i].name == SessionCookie
    {
      SessionSearch(cookies, 0);
      HasSessionCookie(cookies, 0)
    }

    /**
     * `flair_list(subreddit, batch_size)`, materialised: at most `fuel`
     * pages are fetched from `fetch`, the listing endpoint.
     */
    method FlairList(subreddit: string, batchSize: int, fetch: ListingRequest -> Page, fuel: nat)
      returns (listing: Listing)
      ensures listing == ListingFrom(fetch, Url("/api/flairlist", Some(subreddit)), batchSize, None, fuel)
    {
      var url := Url("/api/flairlist", Some(subreddit));
      ghost var spec := ListingFrom(fetch, url, batchSize, None, fuel);
      var after: Option<string> := None;
      var requests: seq<ListingRequest> := [];
      var entries: seq<RemoteEntry> := [];
      var budget: nat := fuel;
      var complete := false;
      while budget > 0
        invariant budget <= fuel
        invariant spec.requests == requests + ListingFrom(fetch, url, batchSize, after, budget).requests
        invariant spec.entries == entries + ListingFrom(fetch, url, batchSize, after, budget).entries
        invariant spec.complete == ListingFrom(fetch, url, batchSize, after, budget).complete
        decreases budget
      {
        var request := ListingRequest(url, batchSize, if IsSet(after) then after else None);
        var page := fetch(request);
        ListingStep(fetch, url, batchSize, after, budget);
        ghost var rest := ListingFrom(fetch, url, batchSize, page.next, budget - 1);
        Associative(requests, [request], if IsSet(page.next) then rest.requests else []);
        Associative(entries, page.users, if IsSet(page.next) then rest.entries else []);
        after := page.next;
        budget := budget - 1;
        requests := requests + [request];
        entries := entries + page.users;
        if !IsSet(after) {
          complete := true;
          assert requests + [] == requests && entries + [] == entries;
          break;
        }
      }
      if !complete {
        assert requests + [] == requests && entries + [] == entries;
      }
      listing := Listing(requests, entries, complete);
    }
  }

  /** `_url` puts the leading `/` on the path itself, so giving it already changes nothing. */
  lemma UrlLeadingSlash(c: Client, path: string, sr: Option<string>)
    ensures c.Url(path, sr) == c.Url(WithLeadingSlash(path), sr)
    ensures c.Url(path, sr)[..|c.host|] == c.host
  {
  }
}
