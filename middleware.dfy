/**
 * The authentication middleware (src/middleware.ts): the redirect decision
 * on the session and the path, and the path matcher that decides which
 * requests run it at all. The session lookup `auth()` becomes the flag
 * `isLoggedIn`.
 */
module Middleware {
  import opened JsString

  /** What the middleware answers: a redirect to a path, or pass the request on. */
  datatype Decision = Redirect(to: string) | Next

  /** A sign-in or sign-up page. */
  predicate IsAuthPage(pathname: string) {
    StartsWith(pathname, "/signin") || StartsWith(pathname, "/signup")
  }

  /** `pathname.startsWith("/")`: every path the middleware sees. */
  predicate IsProtectedPage(pathname: string) {
    StartsWith(pathname, "/")
  }

  /** The decision of `middleware` once it runs, as written. */
  function Decide(isLoggedIn: bool, pathname: string): (d: Decision)
    ensures isLoggedIn && IsAuthPage(pathname) <==> d == Redirect("/")
    ensures !isLoggedIn && IsProtectedPage(pathname) <==> d == Redirect("/signin")
    ensures d == Next <==> (isLoggedIn && !IsAuthPage(pathname)) || (!isLoggedIn && !IsProtectedPage(pathname))
  {
    if isLoggedIn && IsAuthPage(pathname) then Redirect("/")
    else if !isLoggedIn && IsProtectedPage(pathname) then Redirect("/signin")
    else Next
  }

  /** Every auth page is also a "protected" page: the second test covers every path starting "/". */
  lemma {:induction false} AuthPagesAreProtected(pathname: string)
    requires IsAuthPage(pathname)
    ensures IsProtectedPage(pathname)
  {
    assert pathname[..1] == (if StartsWith(pathname, "/signin") then pathname[..7] else pathname[..7])[..1];
  }

  /**
   * The matcher `/((?!api|_next/static|_next/image|signin|.*\.png$).*)`: a
   * path starting "/" whose remainder does not begin with "api",
   * "_next/static", "_next/image" or "signin", and does not end with ".png".
   */
  predicate Matched(pathname: string) {
    StartsWith(pathname, "/")
    && var rest := pathname[1..];
    !StartsWith(rest, "api") && !StartsWith(rest, "_next/static") && !StartsWith(rest, "_next/image")
    && !StartsWith(rest, "signin") && !EndsWith(rest, ".png")
  }

  /** The response to a request, as written: the middleware's decision where the matcher lets it run, else pass. */
  function Handle(isLoggedIn: bool, pathname: string): (d: Decision)
    ensures d == Redirect("/signin") <==> !isLoggedIn && Matched(pathname)
    ensures d == Redirect("/") <==> isLoggedIn && Matched(pathname) && IsAuthPage(pathname)
    ensures d == Next <==> !Matched(pathname) || (isLoggedIn && !IsAuthPage(pathname))
  {
    if Matched(pathname) then Decide(isLoggedIn, pathname) else Next
  }

  /**
   * As written, a logged-out visit to the sign-up page is sent to sign-in:
   * the matcher excludes "signin" but not "signup", and the decision
   * redirects every logged-out path. So is every other sign-up path that does
   * not end in ".png"; the sign-in page itself is never redirected.
   */
  lemma {:induction false} SignupRedirectsToSignin(pathname: string)
    requires StartsWith(pathname, "/signup") && !EndsWith(pathname[1..], ".png")
    ensures Handle(false, pathname) == Redirect("/signin")
    ensures Handle(false, "/signup") == Redirect("/signin")
    ensures Handle(false, "/signin") == Next && Handle(true, "/signin") == Next
  {
    assert pathname[..1] == pathname[..7][..1];
    var rest := pathname[1..];
    assert rest[..6] == pathname[1..7] == "signup";
    assert rest[0] == 's' && rest[4] == 'u' by { assert rest[0] == rest[..6][0] && rest[4] == rest[..6][4]; }
    NotPrefix(rest, "api", 0);
    NotPrefix(rest, "_next/static", 0);
    NotPrefix(rest, "_next/image", 0);
    NotPrefix(rest, "signin", 4);
    assert "/signup"[1..] == "signup";
    assert "/signin"[1..] == "signin";
  }

  /**
   * The evidently intended decision: a logged-out user may reach the
   * sign-in and sign-up pages, a logged-in user is sent home from them, and
   * any other page needs a session.
   */
  function DecideIntended(isLoggedIn: bool, pathname: string): (d: Decision)
    ensures isLoggedIn && IsAuthPage(pathname) <==> d == Redirect("/")
    ensures !isLoggedIn && IsProtectedPage(pathname) && !IsAuthPage(pathname) <==> d == Redirect("/signin")
    ensures d == Next <==> (isLoggedIn && !IsAuthPage(pathname)) || (!isLoggedIn && (IsAuthPage(pathname) || !IsProtectedPage(pathname)))
  {
    if isLoggedIn && IsAuthPage(pathname) then Redirect("/")
    else if !isLoggedIn && IsProtectedPage(pathname) && !IsAuthPage(pathname) then Redirect("/signin")
    else Next
  }

  /** The request handling with the intended decision. */
  function HandleIntended(isLoggedIn: bool, pathname: string): (d: Decision)
    ensures d == Redirect("/signin") <==> !isLoggedIn && Matched(pathname) && !IsAuthPage(pathname)
    ensures d == Redirect("/") <==> isLoggedIn && Matched(pathname) && IsAuthPage(pathname)
    ensures d == Next <==>
      !Matched(pathname) || (isLoggedIn && !IsAuthPage(pathname)) || (!isLoggedIn && IsAuthPage(pathname))
  {
    if Matched(pathname) then DecideIntended(isLoggedIn, pathname) else Next
  }

  /**
   * With the intended decision a logged-out user reaches the sign-up page,
   * every matched page other than an auth page still requires a session, and
   * a logged-in user is still sent home from the sign-up page.
   */
  lemma {:induction false} IntendedSignupReachable(pathname: string)
    ensures HandleIntended(false, "/signup") == Next
    ensures HandleIntended(true, "/signup") == Redirect("/")
    ensures Matched(pathname) && !IsAuthPage(pathname) ==>
      HandleIntended(false, pathname) == Redirect("/signin") && HandleIntended(true, pathname) == Next
  {
    var signup := "/signup";
    assert StartsWith(signup, "/signup") && StartsWith(signup, "/");
    var rest := signup[1..];
    assert rest == "signup";
    NotPrefix(rest, "api", 0);
    NotPrefix(rest, "_next/static", 0);
    NotPrefix(rest, "_next/image", 0);
    NotPrefix(rest, "signin", 4);
    assert !EndsWith("signup", ".png") by { assert "signup"[2..] != ".png" by { assert "signup"[2..][0] != '.'; } }
    assert Matched(signup) && IsAuthPage(signup);
  }

  /**
   * The matcher in terms of the whole path: it runs on every path starting
   * "/" except those under "/api", "/_next/static", "/_next/image" and
   * "/signin" and those ending in ".png".
   */
  lemma {:induction false} MatchedFamilies(pathname: string)
    ensures Matched(pathname) <==>
      StartsWith(pathname, "/")
      && !StartsWith(pathname, "/api") && !StartsWith(pathname, "/_next/static")
      && !StartsWith(pathname, "/_next/image") && !StartsWith(pathname, "/signin")
      && !EndsWith(pathname, ".png")
  {
    if StartsWith(pathname, "/") {
      assert "/api"[1..] == "api";
      assert "/_next/static"[1..] == "_next/static";
      assert "/_next/image"[1..] == "_next/image";
      assert "/signin"[1..] == "signin";
      SlashPrefix(pathname, "/api");
      SlashPrefix(pathname, "/_next/static");
      SlashPrefix(pathname, "/_next/image");
      SlashPrefix(pathname, "/signin");
      SlashPng(pathname);
    }
  }

  /** The excluded paths pass through untouched, logged in or not, as written and as intended. */
  lemma {:induction false} ExcludedPathsPass(isLoggedIn: bool, pathname: string)
    requires !StartsWith(pathname, "/")
      || StartsWith(pathname, "/api") || StartsWith(pathname, "/_next/static")
      || StartsWith(pathname, "/_next/image") || StartsWith(pathname, "/signin")
      || EndsWith(pathname, ".png")
    ensures Handle(isLoggedIn, pathname) == Next && HandleIntended(isLoggedIn, pathname) == Next
  {
    MatchedFamilies(pathname);
  }

  /** Below the leading "/", a prefix of the path is a prefix of its remainder. */
  lemma {:induction false} SlashPrefix(pathname: string, prefix: string)
    requires StartsWith(pathname, "/") && StartsWith(prefix, "/")
    ensures StartsWith(pathname, prefix) <==> StartsWith(pathname[1..], prefix[1..])
  {
    if StartsWith(pathname[1..], prefix[1..]) {
      assert prefix == pathname[..|prefix|] by {
        forall k | 0 <= k < |prefix| ensures prefix[k] == pathname[k] {
          if k > 0 { assert prefix[k] == prefix[1..][k - 1]; }
        }
      }
    }
    if StartsWith(pathname, prefix) {
      assert prefix[1..] == pathname[1..|prefix|];
    }
  }

  /** A path starting "/" ends in ".png" exactly when its remainder does. */
  lemma {:induction false} SlashPng(pathname: string)
    requires StartsWith(pathname, "/")
    ensures EndsWith(pathname, ".png") <==> EndsWith(pathname[1..], ".png")
  {
    if EndsWith(pathname, ".png") {
      assert pathname[0] == '/';
      assert pathname[|pathname| - 4..][0] == '.';
      assert |pathname| != 4;
      assert pathname[1..][|pathname| - 5..] == pathname[|pathname| - 4..];
    }
    if EndsWith(pathname[1..], ".png") {
      assert pathname[1..][|pathname| - 5..] == pathname[|pathname| - 4..];
    }
  }

  /** A string that differs from `prefix` at some position within both does not start with it. */
  lemma {:induction false} NotPrefix(s: string, prefix: string, k: nat)
    requires k < |s| && k < |prefix| && s[k] != prefix[k]
    ensures !StartsWith(s, prefix)
  {
  }
}
