/** The `api_request` decorator: the check every raw API call's decoded response goes through. */
module Utils {

  import opened PyValues
  import opened Exceptions

  /** A decoded response body: a JSON object. */
  type Response = map<string, Json>

  /** The body of the decorated call once the wrapped function has returned `retv`:
      raise `APIError(retv["status"], retv["error_description"])` when the key "error" is
      present, whatever its value; otherwise hand `retv` back unchanged. The two lookups
      happen in argument order, so a missing "status" is reported first. */
  function ApiRequest(retv: Response): (r: Result<Response>)
    ensures r.Ok? <==> "error" !in retv
    ensures r.Ok? ==> r.value == retv
    ensures "error" in retv && "status" !in retv ==> r == Err(KeyError("status"))
    ensures "error" in retv && "status" in retv && "error_description" !in retv ==>
              r == Err(KeyError("error_description"))
    ensures "error" in retv && "status" in retv && "error_description" in retv ==>
              r == Err(Raised(APIError(retv["status"], retv["error_description"])))
  {
    if "error" in retv then
      if "status" !in retv then Err(KeyError("status"))
      else if "error_description" !in retv then Err(KeyError("error_description"))
      else Err(Raised(APIError(retv["status"], retv["error_description"])))
    else Ok(retv)
  }

  /** Only the presence of "error" matters: any two values under it give the same outcome. */
  lemma ErrorValueIrrelevant(retv: Response, v1: Json, v2: Json)
    ensures ApiRequest(retv["error" := v1]) == ApiRequest(retv["error" := v2])
    ensures ApiRequest(retv["error" := v1]).Err?
  {
    var a, b := retv["error" := v1], retv["error" := v2];
    assert ("status" in a) == ("status" in b) && ("error_description" in a) == ("error_description" in b);
    assert "status" in a ==> a["status"] == b["status"];
    assert "error_description" in a ==> a["error_description"] == b["error_description"];
  }
}
