/** The module-level `paginate` of tle/util/paginator.py: its entry checks,
    the optional page-number footers, and the session it hands to the
    background asyncio task. */
module PaginateEntry {
  import opened Wrappers
  import opened PageFooter
  import opened Paginated

  /** The two subclasses of `PaginatorError`. */
  datatype PaginatorError = NoPagesError | InsufficientPermissionsError

  /** A page: opaque content together with the footer of its embed. */
  datatype Page<B> = Page(body: B, footer: Option<string>)

  /** The `enumerate` loop: page `i` (from 0) gets the footer `Page i+1 / N`;
      nothing else about any page changes. */
  method StampFooters<B>(pages: seq<Page<B>>) returns (r: seq<Page<B>>)
    ensures |r| == |pages|
    ensures forall i :: 0 <= i < |pages| ==>
      r[i].body == pages[i].body && r[i].footer == Some(FooterText(i + 1, |pages|))
  {
    r := [];
    var i := 0;
    while i < |pages|
      invariant 0 <= i <= |pages| && |r| == i
      invariant forall j :: 0 <= j < i ==>
        r[j].body == pages[j].body && r[j].footer == Some(FooterText(j + 1, |pages|))
    {
      r := r + [pages[i].(footer := Some(FooterText(i + 1, |pages|)))];
      i := i + 1;
    }
  }

  /** `paginate(bot, ctx, pages, wait_time=..., set_pagenum_footers=...)`.
      `canManage` is the `manage_messages` permission the channel grants the
      bot. An empty page list fails first, whatever the permission; then a
      missing permission fails; otherwise the pages, stamped when there are
      several and footers were asked for, go into a freshly built session. */
  method Paginate<B>(pages: seq<Page<B>>, canManage: bool, setPageNumFooters: bool)
    returns (r: Result<Session<Page<B>>, PaginatorError>)
    ensures |pages| == 0 ==> r == Failure(NoPagesError)
    ensures |pages| > 0 && !canManage ==> r == Failure(InsufficientPermissionsError)
    ensures |pages| > 0 && canManage <==> r.Success?
    ensures r.Success? ==>
      && r.value == Construct(r.value.pages) && Valid(r.value)
      && r.value.phase == Created && r.value.cur == Unset && r.value.msg == None && r.value.trace == []
      && |r.value.pages| == |pages|
      && (|pages| > 1 && setPageNumFooters ==>
            forall i :: 0 <= i < |pages| ==>
              && r.value.pages[i].body == pages[i].body
              && r.value.pages[i].footer == Some(FooterText(i + 1, |pages|))
              && ParseFooter(r.value.pages[i].footer.value) == Some((i + 1, |pages|)))
      && (!(|pages| > 1 && setPageNumFooters) ==> r.value.pages == pages)
  {
    if |pages| == 0 {
      return Failure(NoPagesError);
    }
    if !canManage {
      return Failure(InsufficientPermissionsError);
    }
    var ps := pages;
    if |pages| > 1 && setPageNumFooters {
      ps := StampFooters(pages);
      forall i | 0 <= i < |pages|
        ensures ParseFooter(ps[i].footer.value) == Some((i + 1, |pages|))
      {
        FooterRoundTrip(i + 1, |pages|);
      }
    }
    r := Success(Construct(ps));
  }

  /** Lines 82-83: the checked pages go into a fresh `Paginated`, whose
      `paginate(ctx)` then sends the first page and, with several pages,
      registers the reactions. `sent` is the message `ctx.send` returns. */
  method Launch<B>(pages: seq<Page<B>>, canManage: bool, setPageNumFooters: bool, sent: MessageId)
    returns (r: Result<Session<Page<B>>, PaginatorError>)
    ensures |pages| == 0 ==> r == Failure(NoPagesError)
    ensures |pages| > 0 && !canManage ==> r == Failure(InsufficientPermissionsError)
    ensures |pages| > 0 && canManage <==> r.Success?
    ensures r.Success? ==>
      && Valid(r.value) && |r.value.pages| == |pages| && r.value.msg == Some(sent)
      && (|pages| > 1 && setPageNumFooters ==>
            forall i :: 0 <= i < |pages| ==>
              && r.value.pages[i].body == pages[i].body
              && r.value.pages[i].footer == Some(FooterText(i + 1, |pages|)))
      && (!(|pages| > 1 && setPageNumFooters) ==> r.value.pages == pages)
      && (|pages| == 1 ==>
            r.value.trace == [Send(pages[0])] && r.value.phase == Finished && r.value.cur == Unset)
      && (|pages| > 1 ==>
            && r.value.trace == [Send(r.value.pages[0])] + Registrations(4)
            && r.value.phase == Listening && r.value.cur == At(1))
  {
    var p := Paginate(pages, canManage, setPageNumFooters);
    if p.Failure? {
      return Failure(p.error);
    }
    r := Success(Setup(p.value, sent));
  }
}
