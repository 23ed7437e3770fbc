/**
 * The parsed command-line arguments, the check that exactly one source of
 * authors was given, the list of authors a run walks, and the per-author query URL.
 */
module Params {
  import opened Wrappers
  import opened Errors

  /**
   * The fields of `QueryPullParam` (src/main.rs:30-46) once the command line is
   * parsed. The inventory path is kept only as "given or not": the file's lines
   * reach the model separately (see ResolveAuthors).
   */
  datatype QueryPullParam = QueryPullParam(
    author: Option<string>,
    state: Option<string>,
    duration: nat,
    exc: bool,
    inventory: Option<string>)

  /** The endpoint every query URL starts with (src/main.rs:177). */
  const Link: string := "https://ipb.osinfra.cn/pulls?"

  /** `param_check`: fails unless exactly one of --author and --inventory is given. */
  function ParamCheck(arg: QueryPullParam): (r: Outcome<Failure>)
    ensures r.Pass? <==> (arg.author.Some? != arg.inventory.Some?)
    ensures r.Fail? ==> r.error == AuthorInventoryConflict
  {
    var inv := arg.inventory.Some?;
    var aut := arg.author.Some?;
    if (aut && inv) || (!aut && !inv) then Fail(AuthorInventoryConflict) else Pass
  }

  /**
   * `url_splice`: the author comes from `user` when given and from the argument
   * otherwise; the author is looked up before the state, so a missing author is
   * reported even when the state is missing too.
   */
  function UrlSplice(link: string, arg: QueryPullParam, user: Option<string>): (r: Result<string, Failure>)
    ensures r.Success? <==> (user.Some? || arg.author.Some?) && arg.state.Some?
    ensures user.None? && arg.author.None? ==> r == Failure(NoAuthor)
    ensures (user.Some? || arg.author.Some?) && arg.state.None? ==> r == Failure(NoState)
    ensures r.Success? ==>
      r.value == link + "author=" + (if user.Some? then user.value else arg.author.value)
                 + "&state=" + arg.state.value
  {
    var withAuthor :=
      match user
      case Some(u) => Success(link + "author=" + u)
      case None =>
        match arg.author
        case Some(author) => Success(link + "author=" + author)
        case None => Failure(NoAuthor);
    match withAuthor
    case Failure(e) => Failure(e)
    case Success(url) =>
      match arg.state
      case Some(state) => Success(url + "&state=" + state)
      case None => Failure(NoState)
  }

  /** An explicit user always wins: the `author` argument plays no part then. */
  lemma UrlSpliceIgnoresArgAuthor(link: string, arg: QueryPullParam, other: Option<string>, u: string)
    ensures UrlSplice(link, arg, Some(u)) == UrlSplice(link, arg.(author := other), Some(u))
  {
  }

  /** Different users give different URLs, whatever they contain. */
  lemma {:induction false} UrlSpliceInjective(link: string, arg: QueryPullParam, u1: string, u2: string)
    requires arg.state.Some?
    requires UrlSplice(link, arg, Some(u1)) == UrlSplice(link, arg, Some(u2))
    ensures u1 == u2
  {
    var pre := link + "author=";
    var post := "&state=" + arg.state.value;
    var url := UrlSplice(link, arg, Some(u1)).value;
    assert url == pre + u1 + post == pre + u2 + post;
    assert |u1| == |u2|;
    forall k | 0 <= k < |u1|
      ensures u1[k] == u2[k]
    {
      assert u1[k] == url[|pre| + k] == u2[k];
    }
  }

  /**
   * The authors a run walks, in order (src/main.rs:155-164): the inventory file's
   * lines when --inventory is given (`inventoryFile` is None when the file cannot
   * be opened), otherwise the single --author.
   */
  function ResolveAuthors(arg: QueryPullParam, inventoryFile: Option<seq<string>>): (r: Result<seq<string>, Failure>)
    ensures arg.inventory.Some? ==>
      r == (if inventoryFile.Some? then Success(inventoryFile.value) else Failure(InventoryUnreadable))
    ensures arg.inventory.None? && arg.author.Some? ==> r == Success([arg.author.value])
    ensures r.Failure? && r.error == AuthorMissing <==> arg.inventory.None? && arg.author.None?
  {
    match arg.inventory
    case Some(_) =>
      (match inventoryFile
       case Some(lines) => Success(lines)
       case None => Failure(InventoryUnreadable))
    case None =>
      match arg.author
      case Some(t) => Success([t])
      case None => Failure(AuthorMissing)
  }

  /**
   * Once the argument check passes, the "no author" panic of src/main.rs:160 is
   * unreachable, and a single --author yields a one-element list.
   */
  lemma CheckedArgumentsResolve(arg: QueryPullParam, inventoryFile: Option<seq<string>>)
    requires ParamCheck(arg).Pass?
    ensures ResolveAuthors(arg, inventoryFile) != Failure(AuthorMissing)
    ensures arg.author.Some? ==> ResolveAuthors(arg, inventoryFile) == Success([arg.author.value])
    ensures arg.inventory.Some? && inventoryFile.Some? ==>
      ResolveAuthors(arg, inventoryFile) == Success(inventoryFile.value)
  {
  }
}
