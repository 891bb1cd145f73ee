/**
 * `CountUtil.count`: the size of a repository as a reply. An empty repository is
 * NOT_FOUND with no body; otherwise the body is a map holding the single key "count".
 */
module CountUtil {
  import opened Base
  import opened Entities

  const COUNT_KEY: string := "count"

  function Count(n: nat): (r: Reply<map<string, int>>)
    ensures r.NotFound? <==> n == 0
    ensures r.NotFound? ==> r.body.None?
    ensures r.Done? ==> COUNT_KEY in r.value && r.value.Keys == {COUNT_KEY} && r.value[COUNT_KEY] == n
    ensures !r.BadRequest?
  {
    if n == 0 then NotFound(None) else Done(map[COUNT_KEY := n])
  }

  /** The reply determines the count: two sizes give the same reply only when equal. */
  lemma CountInjective(m: nat, n: nat)
    ensures Count(m) == Count(n) <==> m == n
  {
    if m != n && m != 0 && n != 0 {
      assert Count(m).value[COUNT_KEY] != Count(n).value[COUNT_KEY];
    }
  }
}
