/** The request parser shared by `put` and `patch` (main.py:37-40).
    `title` is a single required value; `section` is a required repeatable
    value; `modifiers` is an optional repeatable value. */
module RequestArgs {
  import opened Outcomes

  /** A request body as the parser sees it. A repeatable argument is the
      list of values sent for it, so the empty list means "not sent". */
  datatype Request = Request(title: Option<string>, section: seq<string>, modifiers: seq<string>)

  /** The parsed arguments. `modifiers` is `None` when none were sent,
      exactly as the parser hands `None` to the handlers. */
  datatype Args = Args(title: string, section: seq<string>, modifiers: Option<seq<string>>)

  /** The arguments are checked in the order they were declared; the first
      missing required one aborts with 400 and its help text. */
  function ParseArgs(req: Request): (r: Result<Args>)
    ensures r.Ok? <==> req.title.Some? && req.section != []
    ensures req.title.None? ==> r == Err(Error(BadRequest, "Title of item is needed"))
    ensures req.title.Some? && req.section == [] ==> r == Err(Error(BadRequest, "Section not specified"))
    ensures r.Ok? ==> r.value.section != [] && r.value.modifiers != Some([])
    ensures r.Ok? ==> Unparse(r.value) == req
  {
    match req.title
    case None => Err(Error(BadRequest, "Title of item is needed"))
    case Some(title) =>
      if req.section == [] then Err(Error(BadRequest, "Section not specified"))
      else Ok(Args(title, req.section, if req.modifiers == [] then None else Some(req.modifiers)))
  }

  /** The request that carries exactly the given arguments. */
  function Unparse(args: Args): Request {
    Request(Some(args.title), args.section,
            match args.modifiers case None => [] case Some(m) => m)
  }

  /** Every argument value the parser can produce is recovered from the
      request that carries it. */
  lemma ParseUnparse(args: Args)
    requires args.section != [] && args.modifiers != Some([])
    ensures ParseArgs(Unparse(args)) == Ok(args)
  {
  }
}
