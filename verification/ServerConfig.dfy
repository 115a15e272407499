/** The server's start-up configuration: which browser origins may call it, and whether cloud storage is configured. */
module ServerConfig {
  import opened Common

  /** `list.filter(Boolean)` on a list of optional strings: the present, non-empty ones, in order. */
  function Compact(s: seq<Option<string>>): (r: seq<string>)
    ensures forall x :: x in r <==> Some(x) in s && x != ""
    ensures |r| <= |s|
    decreases |s|
  {
    if s == [] then []
    else if Truthy(s[0]) then [s[0].value] + Compact(s[1..])
    else Compact(s[1..])
  }

  const DevOrigin := "http://localhost:5173"
  const PreviewOrigin := "http://localhost:5174"

  /** The two local development origins, then `FRONTEND_URL` when it is set to something non-empty. */
  function AllowedOrigins(frontendUrl: Option<string>): (r: seq<string>)
    ensures forall o :: o in r <==> o == DevOrigin || o == PreviewOrigin || (Truthy(frontendUrl) && o == frontendUrl.value)
    ensures |r| == (if Truthy(frontendUrl) then 3 else 2) && r[..2] == [DevOrigin, PreviewOrigin]
    ensures Truthy(frontendUrl) ==> r[2] == frontendUrl.value
  {
    var candidates := [Some(DevOrigin), Some(PreviewOrigin), frontendUrl];
    var r := Compact(candidates);
    assert r == [DevOrigin, PreviewOrigin] + Compact([frontendUrl]) by {
      assert Truthy(candidates[0]) && Truthy(candidates[1..][0]);
      assert candidates[1..] == [Some(PreviewOrigin), frontendUrl];
      assert candidates[1..][1..] == [frontendUrl];
      assert Compact(candidates[1..]) == [PreviewOrigin] + Compact([frontendUrl]);
    }
    assert Compact([frontendUrl]) == (if Truthy(frontendUrl) then [frontendUrl.value] else []) by {
      assert [frontendUrl][1..] == [];
    }
    r
  }

  const CorsMessage := "The CORS policy for this site does not allow access from the specified Origin."

  datatype CorsDecision = Allow | Deny(message: string)

  /** The `origin` callback: no origin passes; otherwise the origin must be found in the list by exact match. */
  function OriginDecision(origin: Option<string>, allowed: seq<string>): (r: CorsDecision)
    ensures r.Allow? <==> !Truthy(origin) || origin.value in allowed
    ensures r.Deny? ==> r.message == CorsMessage
  {
    if !Truthy(origin) then Allow
    else if IndexIn(allowed, origin.value) == -1 then Deny(CorsMessage)
    else Allow
  }

  /** Put together: a request origin passes exactly when it is missing, one of the two local origins, or `FRONTEND_URL`. */
  lemma CorsAllowsExactly(origin: string, frontendUrl: Option<string>)
    ensures OriginDecision(Some(origin), AllowedOrigins(frontendUrl)).Allow? <==>
      origin == "" || origin == DevOrigin || origin == PreviewOrigin || (Truthy(frontendUrl) && origin == frontendUrl.value)
  {
  }
}
