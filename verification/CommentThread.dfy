/** Comments of an issue as the GitHub listing shows them: oldest first, in pages of 100. */
module CommentThread {
  import opened Wrappers

  const PER_PAGE: nat := 100

  datatype Comment = Comment(id: int, created: int, body: string, login: string, userId: Option<int>)

  type Thread = seq<Comment>

  function CreatedSince(thread: Thread, since: int): Thread {
    if thread == [] then []
    else (if thread[0].created >= since then [thread[0]] else []) + CreatedSince(thread[1..], since)
  }

  function Page(thread: Thread, since: int, page: nat): (cs: seq<Comment>)
    requires page >= 1
    ensures |cs| <= PER_PAGE
  {
    var listed := CreatedSince(thread, since);
    var from := (page - 1) * 100;
    if from >= |listed| then []
    else if from + PER_PAGE <= |listed| then listed[from..from + PER_PAGE]
    else listed[from..]
  }
}
