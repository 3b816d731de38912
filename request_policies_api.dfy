/**
 * The request policy storage resource: plain create, fetch, replace and delete over one
 * table, with no validation and no conflict classification.
 */
module RequestPoliciesApi {
  import opened Wrappers
  import opened Http
  import opened Storage

  const RequestPolicyClassName := "org.folio.rest.jaxrs.model.RequestPolicy"
  const NotFoundMessage := "Not Found"

  /** A request policy document; `otherProperties` stands for every property not inspected. */
  datatype RequestPolicy = RequestPolicy(id: Option<string>, name: Option<string>, otherProperties: map<string, string>)

  function PolicyId(policy: RequestPolicy): Option<string>
  {
    policy.id
  }

  /** The request policy table: lookups compare against the policy's own `id`. */
  ghost predicate KeyedByPolicyId(policies: Table<RequestPolicy>)
  {
    forall policy :: policies.recordId(policy) == PolicyId(policy)
  }

  /** The entity a create request saves: a minted id only when it has none. */
  function WithMintedId(entity: RequestPolicy, freshId: string): RequestPolicy
  {
    if entity.id.None? then entity.(id := Some(freshId)) else entity
  }

  /** POST /request-policy-storage/request-policies. */
  method PostRequestPolicy(policies: Table<RequestPolicy>, entity: RequestPolicy, freshId: string, saveFault: Option<Cause>)
    returns (r: Response<RequestPolicy>)
    modifies policies
    ensures var id := if entity.id.Some? then entity.id.value else freshId;
      var saved := WithMintedId(entity, freshId);
      && saved.id == Some(id)
      && saved.(id := entity.id) == entity
      && (saveFault.None? ==> r == Created(saved, id) && policies.rows == old(policies.rows)[id := saved])
      && (saveFault.Some? ==> r == ServerError(saveFault.value.rendered) && policies.rows == old(policies.rows))
  {
    var policy := entity;
    if policy.id.None? {
      policy := policy.(id := Some(freshId));
    }
    var saved := policies.Save(policy.id, policy, saveFault, freshId);
    match saved
    case Success(location) =>
      r := Created(policy, location);
    case Failure(cause) =>
      r := ServerError(cause.rendered);
  }

  /** DELETE /request-policy-storage/request-policies: delete every row; always 204. */
  method DeleteAllRequestPolicies(policies: Table<RequestPolicy>, fault: Option<Cause>) returns (r: Response<RequestPolicy>)
    modifies policies
    ensures r == NoContent
    ensures policies.rows == if fault.None? then map[] else old(policies.rows)
  {
    var _ := policies.DeleteAll(fault);
    r := NoContent;
  }

  /** GET /request-policy-storage/request-policies/{requestPolicyId}. */
  method GetRequestPolicyById(policies: Table<RequestPolicy>, requestPolicyId: string, fault: Option<Cause>)
    returns (r: Response<RequestPolicy>)
    requires KeyedByPolicyId(policies)
    ensures fault.Some? ==> r == ServerError(fault.value.message)
    ensures fault.None? ==>
      var found := Matching(policies.rows, policies.recordId, IdCriterion(requestPolicyId));
      && (r.Ok? <==> |found| == 1)
      && (r.Ok? ==> r.entity in found.Values && r.entity.id == Some(requestPolicyId))
      && (!r.Ok? ==> r == NotFound(ErrorList(ValidationErrorMessage("name", RequestPolicyClassName, NotFoundMessage))))
  {
    var criterion := IdCriterion(requestPolicyId);
    var reply := policies.Get(criterion, fault);
    match reply
    case Failure(cause) =>
      r := ServerError(cause.message);
    case Success(found) =>
      assert found == Matching(policies.rows, policies.recordId, criterion);
      if |found| == 1 {
        ghost var only := SingletonMap(found);
        var k :| k in found;
        r := Ok(found[k]);
      } else {
        r := NotFound(ErrorList(ValidationErrorMessage("name", RequestPolicyClassName, NotFoundMessage)));
      }
  }

  /**
   * PUT /request-policy-storage/request-policies/{requestPolicyId}: update when exactly one
   * document has the path id, otherwise save under the entity's own id; every failure is 500.
   */
  method PutRequestPolicy(policies: Table<RequestPolicy>, requestPolicyId: string, entity: RequestPolicy,
                          lookupFault: Option<Cause>, writeFault: Option<Cause>, generatedKey: string)
    returns (r: Response<RequestPolicy>)
    requires KeyedByPolicyId(policies)
    modifies policies
    ensures lookupFault.Some? ==> r == ServerError(lookupFault.value.message) && policies.rows == old(policies.rows)
    ensures lookupFault.None? && writeFault.Some? ==>
      r == ServerError(writeFault.value.message) && policies.rows == old(policies.rows)
    ensures lookupFault.None? && writeFault.None? ==>
      && r == NoContent
      && policies.rows == Upserted(old(policies.rows), policies.recordId, IdCriterion(requestPolicyId), entity,
                                   SaveKey(entity.id, generatedKey))
  {
    var criterion := IdCriterion(requestPolicyId);
    var reply := policies.Get(criterion, lookupFault);
    match reply
    case Failure(cause) =>
      r := ServerError(cause.message);
    case Success(found) =>
      assert found == Matching(policies.rows, policies.recordId, criterion);
      if |found| == 1 {
        var updated := policies.Update(criterion, entity, writeFault);
        match updated
        case Pass =>
          r := NoContent;
        case Fail(cause) =>
          r := ServerError(cause.message);
      } else {
        var saved := policies.Save(entity.id, entity, writeFault, generatedKey);
        match saved
        case Success(_) =>
          r := NoContent;
        case Failure(cause) =>
          r := ServerError(cause.message);
      }
  }

  /** DELETE /request-policy-storage/request-policies/{requestPolicyId}. */
  method DeleteRequestPolicyById(policies: Table<RequestPolicy>, requestPolicyId: string, fault: Option<Cause>)
    returns (r: Response<RequestPolicy>)
    requires KeyedByPolicyId(policies)
    modifies policies
    ensures fault.Some? ==> r == ServerError(fault.value.message) && policies.rows == old(policies.rows)
    ensures fault.None? ==>
      r == NoContent && policies.rows == Removed(old(policies.rows), policies.recordId, IdCriterion(requestPolicyId))
  {
    var deleted := policies.Delete(IdCriterion(requestPolicyId), fault);
    match deleted
    case Pass =>
      r := NoContent;
    case Fail(cause) =>
      r := ServerError(cause.message);
  }
}
