/**
 * `NodeManagerControllerApi`: the three endpoints over the service. The
 * `x-request-id` and `x-correlation-id` header values are taken as parameters and
 * used for nothing else, so no contract below depends on them.
 */
module NodeManagerControllerApi {
  import opened Wrappers
  import opened Http
  import opened Dtos
  import opened EdgeTable
  import opened TreeSpec
  import opened NodeManagerService
  import GlobalExceptionHandler

  /** `ResponseEntity<T>`: a status with a body. */
  datatype ResponseEntity<T> = ResponseEntity(status: HttpStatus, body: T)

  /** The message of the duplicate check in the create endpoint. */
  function DuplicateMessage(request: Edge): string {
    "Edge from " + IntToString(request.fromId) + " to " + IntToString(request.toId) + " already exists."
  }

  class Controller {
    const service: Service

    constructor (service: Service)
      ensures this.service == service
    {
      this.service := service;
    }

    /**
     * `POST /edges`: refuse a stored pair before inserting anything; otherwise
     * insert it once and answer 201 with its ids.
     */
    method CreateEdge(requestId: string, correlationId: string, request: Edge)
        returns (r: Result<ResponseEntity<EdgeResponse>, ServiceError>)
      requires service.Valid()
      modifies service
      ensures service.Valid() && service.deleteCalls == old(service.deleteCalls)
      ensures request in old(service.edges) ==>
        && r == Failure(DuplicateResource(DuplicateMessage(request)))
        && service.edges == old(service.edges)
        && service.createCalls == old(service.createCalls)
      ensures request !in old(service.edges) ==>
        && r == Success(ResponseEntity(Created, EdgeResponse(request.fromId, request.toId)))
        && service.edges == old(service.edges) + [request]
        && service.createCalls == old(service.createCalls) + 1
    {
      var existingEdge := service.FindEdge(request.fromId, request.toId);
      if existingEdge.Some? {
        return Failure(DuplicateResource(DuplicateMessage(request)));
      }
      var newEdge := service.CreateEdge(request.fromId, request.toId);
      r := match newEdge
        case Success(e) => Success(ResponseEntity(Created, EdgeResponse(e.fromId, e.toId)))
        case Failure(err) => Failure(err);
    }

    /** `DELETE /edges/{fromId}/{toId}`: delete the pair if stored; always 204. */
    method RemoveEdge(requestId: string, correlationId: string, fromId: int, toId: int)
        returns (r: ResponseEntity<()>)
      requires service.Valid()
      modifies service
      ensures service.Valid()
      ensures r.status == NoContent
      ensures service.edges == RemovePair(old(service.edges), Edge(fromId, toId))
      ensures Edge(fromId, toId) !in old(service.edges) ==> service.edges == old(service.edges)
      ensures service.deleteCalls == old(service.deleteCalls) + 1
      ensures service.createCalls == old(service.createCalls)
    {
      var count := service.DeleteEdge(fromId, toId);
      if Edge(fromId, toId) !in old(service.edges) {
        RemoveAbsent(old(service.edges), Edge(fromId, toId));
      }
      r := ResponseEntity(NoContent, ());
    }

    /** `GET /edges/tree/{nodeId}`: the service's tree, unchanged. */
    method GetEdgeTree(requestId: string, correlationId: string, nodeId: int, ghost rank: map<int, nat>)
        returns (r: Result<NodeTree, ServiceError>)
      requires Ranked(service.edges, rank) && nodeId in rank
      ensures r == Success(Unfold(service.edges, rank, nodeId))
    {
      ghost var dequeued;
      r, dequeued := service.GetTreeByRootNode(nodeId, rank);
    }
  }

  /**
   * Creating the same pair twice in a row through the controller: the first call
   * answers 201, the second fails with `DuplicateResource`, which the exception
   * handler turns into 409, and the table holds the pair once.
   */
  method CreateSamePairTwice(controller: Controller, request: Edge)
      returns (first: Result<ResponseEntity<EdgeResponse>, ServiceError>,
               second: Result<ResponseEntity<EdgeResponse>, ServiceError>)
    requires controller.service.Valid() && request !in controller.service.edges
    modifies controller.service
    ensures first.Success? && first.value.status == Created
    ensures second.Failure? && second.error.DuplicateResource?
    ensures Value(GlobalExceptionHandler.Handle(GlobalExceptionHandler.FromServiceError(second.error)).status) == 409
    ensures controller.service.edges == old(controller.service.edges) + [request]
    ensures controller.service.createCalls == old(controller.service.createCalls) + 1
  {
    first := controller.CreateEdge("", "", request);
    second := controller.CreateEdge("", "", request);
  }
}
