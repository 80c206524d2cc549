/**
 * Author resolution for a comment found in the page: walk up from the
 * comment's text element through at most six ancestors, stop at the first
 * `UL`, and take the author from the first profile link found on the way.
 * The server and the extension walk the same way but accept different links.
 */
module Authors {
  import opened Wrappers
  import opened Strings
  import Mentions

  /** An anchor element: its `href` attribute and its `innerText`. */
  datatype Link = Link(href: string, text: string)

  /** One element on the walk: its tag name and the anchors inside it, in document order. */
  datatype Ancestor = Ancestor(tag: string, links: seq<Link>)

  /** The walk visits at most this many ancestors. */
  const MaxDepth: nat := 6

  /** Top-level routes that look like a profile path but are not users. */
  const Reserved: seq<string> := ["explore", "reels", "stories", "accounts", "direct", "create", "legal"]

  /** `container.querySelector(selector)`: the first anchor that the selector accepts. */
  function FirstLink(links: seq<Link>, selectable: Link -> bool): (r: Option<Link>)
    ensures r.None? <==> forall i :: 0 <= i < |links| ==> !selectable(links[i])
    ensures r.Some? ==> exists i :: 0 <= i < |links| && links[i] == r.value && selectable(links[i])
                                    && forall j :: 0 <= j < i ==> !selectable(links[j])
  {
    if links == [] then None
    else if selectable(links[0]) then Some(links[0])
    else
      var r := FirstLink(links[1..], selectable);
      assert forall i :: 1 <= i < |links| ==> links[i] == links[1..][i - 1];
      r
  }

  /** The server's selector `a[href^="/"]:not([href*="/p/"]):not([href*="/reels/"])`. */
  predicate ServerSelectable(l: Link)
  {
    StartsWith(l.href, "/") && !Contains(l.href, "/p/") && !Contains(l.href, "/reels/")
  }

  /** The extension's selector `a[href^="/"]:not([href*="/p/"])`. */
  predicate ExtensionSelectable(l: Link)
  {
    StartsWith(l.href, "/") && !Contains(l.href, "/p/")
  }

  predicate IsHandle(h: string)
  {
    h != [] && forall k :: 0 <= k < |h| ==> Mentions.IsHandleChar(h[k])
  }

  /** The capture group of `href.match(/^\/([a-zA-Z0-9_.]+)\/?$/)`, if it matches. */
  function ProfilePath(href: string): (r: Option<string>)
    ensures r.Some? ==> IsHandle(r.value)
                        && (href == "/" + r.value || href == "/" + r.value + "/")
  {
    if |href| >= 2 && href[0] == '/' then
      var body := if href[|href| - 1] == '/' then href[1..|href| - 1] else href[1..];
      if IsHandle(body) then
        assert href == "/" + body || href == "/" + body + "/";
        Some(body)
      else None
    else None
  }

  /** Both forms of a profile path, with and without the trailing slash, give the handle back. */
  lemma ProfilePathOfHandle(h: string)
    requires IsHandle(h)
    ensures ProfilePath("/" + h) == Some(h)
    ensures ProfilePath("/" + h + "/") == Some(h)
  {
    assert ("/" + h)[1..] == h;
    assert ("/" + h + "/")[1..|h| + 1] == h;
    assert ("/" + h)[|h|] == h[|h| - 1];
  }

  /** What one server step accepts: the first selectable link, if it is a profile path of a non-reserved user whose text has no `@`. */
  function ServerPick(a: Ancestor): Option<string>
  {
    match FirstLink(a.links, ServerSelectable)
    case None => None
    case Some(l) =>
      match ProfilePath(l.href)
      case None => None
      case Some(user) => if user !in Reserved && '@' !in l.text then Some(user) else None
  }

  /** What one extension step accepts: the first selectable link whose text has no `@`, with every `/` removed from its href. */
  function ExtensionPick(a: Ancestor): Option<string>
  {
    match FirstLink(a.links, ExtensionSelectable)
    case None => None
    case Some(l) => if '@' !in l.text then Some(RemoveAll(l.href, '/')) else None
  }

  /** Step `k` of the walk is taken: within the depth bound and no `UL` up to it. */
  predicate Reachable(ancestors: seq<Ancestor>, k: int)
  {
    0 <= k < MaxDepth && k < |ancestors| && forall j :: 0 <= j <= k ==> ancestors[j].tag != "UL"
  }

  /** The author the walk settles on from step `i` on, or `""`. */
  function WalkFrom(ancestors: seq<Ancestor>, pick: Ancestor -> Option<string>, i: nat): string
    decreases MaxDepth - i
  {
    if i >= MaxDepth || i >= |ancestors| || ancestors[i].tag == "UL" then ""
    else match pick(ancestors[i])
      case Some(user) => user
      case None => WalkFrom(ancestors, pick, i + 1)
  }

  function WalkAuthor(ancestors: seq<Ancestor>, pick: Ancestor -> Option<string>): string
  {
    WalkFrom(ancestors, pick, 0)
  }

  /**
   * The `for (let i = 0; i < 6; i++)` walk: stop at the top of the document
   * or at a `UL`, otherwise take the step's author if it has one.
   */
  method ResolveAuthor(ancestors: seq<Ancestor>, pick: Ancestor -> Option<string>) returns (author: string)
    ensures author == WalkAuthor(ancestors, pick)
  {
    author := "";
    for i := 0 to MaxDepth
      invariant author == ""
      invariant WalkFrom(ancestors, pick, i) == WalkAuthor(ancestors, pick)
    {
      if i >= |ancestors| || ancestors[i].tag == "UL" {
        break;
      }
      var found := pick(ancestors[i]);
      if found.Some? {
        author := found.value;
        return;
      }
    }
  }

  /** The walk returns the first reachable step's author. */
  lemma {:induction false} WalkFromFirstPick(ancestors: seq<Ancestor>, pick: Ancestor -> Option<string>, i: nat, k: nat)
    requires i <= k && Reachable(ancestors, k) && pick(ancestors[k]).Some?
    requires forall j :: i <= j < k ==> pick(ancestors[j]).None?
    ensures WalkFrom(ancestors, pick, i) == pick(ancestors[k]).value
    decreases k - i
  {
    if i < k {
      WalkFromFirstPick(ancestors, pick, i + 1, k);
    }
  }

  /** When no reachable step has an author, the walk yields `""`. */
  lemma {:induction false} WalkFromNoPick(ancestors: seq<Ancestor>, pick: Ancestor -> Option<string>, i: nat)
    requires forall k :: i <= k && Reachable(ancestors, k) ==> pick(ancestors[k]).None?
    requires forall j :: 0 <= j < i && j < |ancestors| ==> ancestors[j].tag != "UL"
    ensures WalkFrom(ancestors, pick, i) == ""
    decreases MaxDepth - i
  {
    if i < MaxDepth && i < |ancestors| && ancestors[i].tag != "UL" {
      assert Reachable(ancestors, i);
      WalkFromNoPick(ancestors, pick, i + 1);
    }
  }

  /** The author is the first reachable step's pick, and `""` when there is none. */
  lemma WalkAuthorFirst(ancestors: seq<Ancestor>, pick: Ancestor -> Option<string>)
    ensures forall k :: Reachable(ancestors, k) && pick(ancestors[k]).Some?
                        && (forall j :: 0 <= j < k ==> pick(ancestors[j]).None?)
                        ==> WalkAuthor(ancestors, pick) == pick(ancestors[k]).value
    ensures (forall k :: Reachable(ancestors, k) ==> pick(ancestors[k]).None?)
            ==> WalkAuthor(ancestors, pick) == ""
  {
    forall k | Reachable(ancestors, k) && pick(ancestors[k]).Some?
               && (forall j :: 0 <= j < k ==> pick(ancestors[j]).None?)
      ensures WalkAuthor(ancestors, pick) == pick(ancestors[k]).value
    {
      WalkFromFirstPick(ancestors, pick, 0, k);
    }
    if forall k :: Reachable(ancestors, k) ==> pick(ancestors[k]).None? {
      WalkFromNoPick(ancestors, pick, 0);
    }
  }

  /**
   * Nothing at or beyond the sixth ancestor or the first `UL` matters:
   * cutting the chain there leaves the author unchanged.
   */
  lemma {:induction false} WalkFromCut(ancestors: seq<Ancestor>, pick: Ancestor -> Option<string>, n: nat, i: nat)
    requires i <= n <= |ancestors|
    requires n >= MaxDepth || (n < |ancestors| && ancestors[n].tag == "UL")
    ensures WalkFrom(ancestors, pick, i) == WalkFrom(ancestors[..n], pick, i)
    decreases n - i
  {
    if i < n {
      assert ancestors[..n][i] == ancestors[i];
      WalkFromCut(ancestors, pick, n, i + 1);
    }
  }

  lemma WalkAuthorBounded(ancestors: seq<Ancestor>, pick: Ancestor -> Option<string>, n: nat)
    requires n <= |ancestors|
    requires n >= MaxDepth || (n < |ancestors| && ancestors[n].tag == "UL")
    ensures WalkAuthor(ancestors, pick) == WalkAuthor(ancestors[..n], pick)
  {
    WalkFromCut(ancestors, pick, n, 0);
  }

  /** The walk's result is `""` or the pick of some reachable step. */
  lemma {:induction false} WalkFromIsPick(ancestors: seq<Ancestor>, pick: Ancestor -> Option<string>, i: nat)
    requires forall j :: 0 <= j < i && j < |ancestors| ==> ancestors[j].tag != "UL"
    ensures var r := WalkFrom(ancestors, pick, i);
            r == "" || exists k :: i <= k && Reachable(ancestors, k) && pick(ancestors[k]) == Some(r)
    decreases MaxDepth - i
  {
    if i < MaxDepth && i < |ancestors| && ancestors[i].tag != "UL" {
      assert Reachable(ancestors, i);
      if pick(ancestors[i]).None? {
        WalkFromIsPick(ancestors, pick, i + 1);
      }
    }
  }

  /**
   * A server author is a profile handle that is not a reserved route,
   * taken from a link whose text has no `@`.
   */
  lemma ServerAuthorWellFormed(ancestors: seq<Ancestor>)
    ensures var author := WalkAuthor(ancestors, ServerPick);
            author != "" ==> IsHandle(author) && author !in Reserved
  {
    WalkFromIsPick(ancestors, ServerPick, 0);
  }

  /** An extension author never contains a `/`. */
  lemma ExtensionAuthorHasNoSlash(ancestors: seq<Ancestor>)
    ensures '/' !in WalkAuthor(ancestors, ExtensionPick)
  {
    WalkFromIsPick(ancestors, ExtensionPick, 0);
  }
}
