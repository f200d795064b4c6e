/** The post feed: the optimistic like toggle and the comment submission of one post
    card, and the prepend of a newly created post. */
module Feed {
  import opened Optional
  import Lists
  import Strings

  datatype Comment = Comment(user: string, text: string)

  /** A post as the feed lists it. */
  datatype PostView = PostView(id: string, text: string, likes: seq<string>, comments: seq<Comment>)

  /** The body of the comment request. */
  datatype CommentRequest = CommentRequest(userId: string, text: string)

  /** The card for one post, shown to the signed-in user `me`. */
  class PostCardState {
    const postId: string
    const me: string
    var likes: seq<string>
    var comments: seq<Comment>
    var commentText: string

    /** `useState(post.likes || [])` and the same for the comments. */
    constructor (postId: string, me: string, postLikes: Option<seq<string>>, postComments: Option<seq<Comment>>)
      ensures this.postId == postId && this.me == me
      ensures likes == postLikes.GetOr([]) && comments == postComments.GetOr([])
      ensures commentText == ""
    {
      this.postId := postId;
      this.me := me;
      likes := postLikes.GetOr([]);
      comments := postComments.GetOr([]);
      commentText := "";
    }

    /** `likes.includes(user._id)`. */
    predicate IsLiked()
      reads this
    {
      me in likes
    }

    /** `handleLike`: toggle the own id in the local list before the request; the
        request carries the own id. */
    method HandleLike() returns (requestUserId: string)
      modifies this
      ensures likes == Lists.Toggle(old(likes), me)
      ensures IsLiked() <==> !old(IsLiked())
      ensures comments == old(comments) && commentText == old(commentText)
      ensures requestUserId == me
    {
      if me in likes {
        likes := Lists.RemoveAll(likes, me);
      } else {
        likes := likes + [me];
      }
      requestUserId := me;
    }

    method SetCommentText(text: string)
      modifies this
      ensures commentText == text && likes == old(likes) && comments == old(comments)
    {
      commentText := text;
    }

    /** `handleCommentSubmit`: nothing for a blank comment; otherwise post it, and when
        the server answers (`serverComments` is `None` if the request failed) take its
        list and clear the input. */
    method SubmitComment(serverComments: Option<seq<Comment>>) returns (request: Option<CommentRequest>)
      modifies this
      ensures likes == old(likes)
      ensures Strings.IsBlank(old(commentText)) ==>
        request == None && comments == old(comments) && commentText == old(commentText)
      ensures !Strings.IsBlank(old(commentText)) ==> request == Some(CommentRequest(me, old(commentText)))
      ensures !Strings.IsBlank(old(commentText)) && serverComments.Some? ==>
        comments == serverComments.value && commentText == ""
      ensures !Strings.IsBlank(old(commentText)) && serverComments.None? ==>
        comments == old(comments) && commentText == old(commentText)
    {
      if Strings.IsBlank(commentText) {
        return None;
      }
      request := Some(CommentRequest(me, commentText));
      if serverComments.Some? {
        comments := serverComments.value;
        commentText := "";
      }
    }
  }

  /** The feed's list of posts. */
  class FeedState {
    var posts: seq<PostView>

    constructor ()
      ensures posts == []
    {
      posts := [];
    }

    /** The fetched posts replace the list. */
    method LoadPosts(data: seq<PostView>)
      modifies this
      ensures posts == data
    {
      posts := data;
    }

    /** A newly created post goes first; the others keep their order. */
    method OnNewPost(trigger: Option<PostView>)
      modifies this
      ensures trigger.Some? ==> posts == [trigger.value] + old(posts)
      ensures trigger.None? ==> posts == old(posts)
    {
      if trigger.Some? {
        posts := [trigger.value] + posts;
      }
    }
  }
}
