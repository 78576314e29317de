/** The dialog that writes a new forum post: the ordered checks a submit
    passes before anything is sent, the trimming of what is sent, and the
    reset on close. Toasts are recorded in `toasts`, calls to `onClose` are
    counted, and the posts handed to the create mutation are kept in `sent`. */
module ForumPost {
  import Text

  /** The body of `POST /api/forum`. */
  datatype PostData = PostData(title: string, content: string, category: string)

  /** A notification shown to the user. */
  datatype Toast = Toast(title: string, description: string, destructive: bool)

  const AuthRequiredToast: Toast :=
    Toast("Authentication required", "Please log in to create a forum post.", true)
  const MissingFieldsToast: Toast :=
    Toast("Missing information", "Please fill in all required fields.", true)
  const PostCreatedToast: Toast :=
    Toast("Post created!", "Your forum post has been published successfully.", false)

  /** What a submit does: warn, or send a post. */
  datatype Decision = AuthRequired | MissingFields | Send(post: PostData)

  /** `handleSubmit`: the login check comes first, then the three field checks. */
  function SubmitDecision(isAuthenticated: bool, title: string, content: string, category: string): (d: Decision)
    ensures !isAuthenticated ==> d == AuthRequired
    ensures d == MissingFields <==>
              isAuthenticated && (Text.AllWhitespace(title) || Text.AllWhitespace(content) || category == "")
    ensures d.Send? <==>
              isAuthenticated && !Text.AllWhitespace(title) && !Text.AllWhitespace(content) && category != ""
    ensures d.Send? ==> d.post.category == category
  {
    Text.TrimEmptyIff(title);
    Text.TrimEmptyIff(content);
    if !isAuthenticated then AuthRequired
    else if Text.Trim(title) == "" || Text.Trim(content) == "" || category == "" then MissingFields
    else Send(PostData(Text.Trim(title), Text.Trim(content), category))
  }

  /** A sent post has a non-blank title and content with no white space
      around them, each a slice of what was typed with only white space cut
      away, and submitting it again sends it unchanged. */
  lemma SentPostIsTrimmed(title: string, content: string, category: string)
    requires SubmitDecision(true, title, content, category).Send?
    ensures var p := SubmitDecision(true, title, content, category).post;
            && p.title != [] && !Text.IsWhitespace(p.title[0]) && !Text.IsWhitespace(p.title[|p.title| - 1])
            && p.content != [] && !Text.IsWhitespace(p.content[0])
            && !Text.IsWhitespace(p.content[|p.content| - 1])
            && (exists i, j :: Text.WhitespaceAround(title, p.title, i, j))
            && (exists i, j :: Text.WhitespaceAround(content, p.content, i, j))
            && SubmitDecision(true, p.title, p.content, p.category) == Send(p)
  {
    Text.TrimEmptyIff(title);
    Text.TrimEmptyIff(content);
    Text.TrimIsSlice(title);
    Text.TrimIsSlice(content);
    Text.TrimIdempotent(title);
    Text.TrimIdempotent(content);
  }

  /** Padding the fields with white space does not change what is sent. */
  lemma PaddingIgnored(title: string, content: string, category: string, pad: string)
    requires Text.AllWhitespace(pad)
    ensures SubmitDecision(true, pad + title + pad, pad + content + pad, category) ==
            SubmitDecision(true, title, content, category)
  {
    Text.TrimPadded(title, pad);
    Text.TrimPadded(content, pad);
    Text.TrimEmptyIff(title);
    Text.TrimEmptyIff(content);
    Text.TrimEmptyIff(pad + title + pad);
    Text.TrimEmptyIff(pad + content + pad);
  }

  class ForumPostDialog {
    var title: string
    var content: string
    var category: string
    var toasts: seq<Toast>
    var sent: seq<PostData>
    var closeRequests: nat

    predicate Cleared()
      reads this
    {
      title == "" && content == "" && category == ""
    }

    constructor ()
      ensures Cleared() && toasts == [] && sent == [] && closeRequests == 0
    {
      title, content, category := "", "", "";
      toasts, sent := [], [];
      closeRequests := 0;
    }

    method Edit(newTitle: string, newContent: string, newCategory: string)
      modifies this
      ensures title == newTitle && content == newContent && category == newCategory
      ensures toasts == old(toasts) && sent == old(sent) && closeRequests == old(closeRequests)
    {
      title, content, category := newTitle, newContent, newCategory;
    }

    /** `handleSubmit`: a warning toast, or the post handed to the mutation.
        The fields are kept either way. */
    method HandleSubmit(isAuthenticated: bool)
      modifies this
      ensures title == old(title) && content == old(content) && category == old(category)
      ensures closeRequests == old(closeRequests)
      ensures match SubmitDecision(isAuthenticated, title, content, category)
              case AuthRequired => toasts == old(toasts) + [AuthRequiredToast] && sent == old(sent)
              case MissingFields => toasts == old(toasts) + [MissingFieldsToast] && sent == old(sent)
              case Send(p) => sent == old(sent) + [p] && toasts == old(toasts)
    {
      if !isAuthenticated {
        toasts := toasts + [AuthRequiredToast];
        return;
      }
      var t := Text.Trim(title);
      var c := Text.Trim(content);
      if t == "" || c == "" || category == "" {
        toasts := toasts + [MissingFieldsToast];
        return;
      }
      sent := sent + [PostData(t, c, category)];
    }

    /** `handleClose`: the three fields are cleared, then `onClose` is called. */
    method HandleClose()
      modifies this
      ensures Cleared() && closeRequests == old(closeRequests) + 1
      ensures toasts == old(toasts) && sent == old(sent)
    {
      title, content, category := "", "", "";
      closeRequests := closeRequests + 1;
    }

    /** The mutation's `onSuccess`: a toast, then `handleClose`. */
    method PostCreated()
      modifies this
      ensures Cleared() && closeRequests == old(closeRequests) + 1
      ensures toasts == old(toasts) + [PostCreatedToast] && sent == old(sent)
    {
      toasts := toasts + [PostCreatedToast];
      HandleClose();
    }

    /** The mutation's `onError`: a toast with the error's message; the fields are kept. */
    method PostFailed(message: string)
      modifies this
      ensures toasts == old(toasts) + [Toast("Error creating post", message, true)]
      ensures title == old(title) && content == old(content) && category == old(category)
      ensures sent == old(sent) && closeRequests == old(closeRequests)
    {
      toasts := toasts + [Toast("Error creating post", message, true)];
    }

    /** After a close, a submit sends nothing until the fields are filled again. */
    lemma ClearedSendsNothing(isAuthenticated: bool)
      requires Cleared()
      ensures !SubmitDecision(isAuthenticated, title, content, category).Send?
    {
    }
  }
}
