/**
 * Delivery of a local video file: the chat the invocation came from, the
 * request posted to the Napcat gateway, and the fallback through the host's
 * own sending capabilities. Host attributes that the code probes with
 * `hasattr` are options and capability flags here; a `None` member stands
 * for one that is missing or falsy, and an id of `""` for a missing or falsy id.
 */
module Delivery {
  import opened Wrappers
  import opened Text

  datatype GroupInfo = GroupInfo(groupId: string)
  datatype UserInfo = UserInfo(userId: string)

  /** `message.message_info`. */
  datatype MessageInfo = MessageInfo(groupInfo: Option<GroupInfo>, userInfo: Option<UserInfo>)

  /** `message.chat_stream`. */
  datatype ChatStream = ChatStream(groupInfo: Option<GroupInfo>, userInfo: Option<UserInfo>)

  /** The command's `message` attribute. */
  datatype Message = Message(messageInfo: Option<MessageInfo>, chatStream: Option<ChatStream>)

  /** Where a video is sent: a group chat or a private chat. */
  datatype ChatTarget = Group(groupId: string) | Private(userId: string)

  function GroupOf(g: Option<GroupInfo>): Option<ChatTarget> {
    if g.Some? && g.value.groupId != "" then Some(Group(g.value.groupId)) else None
  }

  function UserOf(u: Option<UserInfo>): Option<ChatTarget> {
    if u.Some? && u.value.userId != "" then Some(Private(u.value.userId)) else None
  }

  /** The `group_info` read by candidate `k` (0, 1: `message_info`; 2, 3: `chat_stream`). */
  function GroupsAt(m: Message, k: int): Option<GroupInfo> {
    if k < 2 then (if m.messageInfo.Some? then m.messageInfo.value.groupInfo else None)
    else (if m.chatStream.Some? then m.chatStream.value.groupInfo else None)
  }

  /** The `user_info` read by candidate `k`. */
  function UsersAt(m: Message, k: int): Option<UserInfo> {
    if k < 2 then (if m.messageInfo.Some? then m.messageInfo.value.userInfo else None)
    else (if m.chatStream.Some? then m.chatStream.value.userInfo else None)
  }

  /**
   * The extractors in priority order: the group, then the user, of
   * `message_info`; then the group of `chat_stream`, and its user only when
   * it has no `group_info` at all (the code's `elif`).
   */
  function ChatCandidates(m: Message): (c: seq<Option<ChatTarget>>)
    ensures |c| == 4
    ensures forall k :: 0 <= k < 3 ==> c[k] == if k % 2 == 0 then GroupOf(GroupsAt(m, k)) else UserOf(UsersAt(m, k))
    ensures c[3] == if m.chatStream.Some? && m.chatStream.value.groupInfo.None? then UserOf(UsersAt(m, 3)) else None
    ensures forall k :: 0 <= k < 4 && c[k].Some? ==> (c[k].value.Group? <==> k % 2 == 0)
  {
    var mi, cs := m.messageInfo, m.chatStream;
    [ if mi.Some? then GroupOf(mi.value.groupInfo) else None,
      if mi.Some? then UserOf(mi.value.userInfo) else None,
      if cs.Some? then GroupOf(cs.value.groupInfo) else None,
      if cs.Some? && cs.value.groupInfo.None? then UserOf(cs.value.userInfo) else None ]
  }

  function FirstPresent(cands: seq<Option<ChatTarget>>): Option<ChatTarget>
    decreases |cands|
  {
    if cands == [] then None else if cands[0].Some? then cands[0] else FirstPresent(cands[1..])
  }

  lemma FirstPresentOfFour(a: Option<ChatTarget>, b: Option<ChatTarget>, c: Option<ChatTarget>, d: Option<ChatTarget>)
    ensures FirstPresent([a, b, c, d])
      == if a.Some? then a else if b.Some? then b else if c.Some? then c else d
  {
    assert [a, b, c, d][1..] == [b, c, d];
    assert [b, c, d][1..] == [c, d];
    assert [c, d][1..] == [d];
    assert [d][1..] == [];
    assert FirstPresent([d]) == d;
    assert FirstPresent([c, d]) == if c.Some? then c else d;
    assert FirstPresent([b, c, d]) == if b.Some? then b else if c.Some? then c else d;
  }

  /** The chat a reply goes to, if the message tells. */
  function ResolveTarget(m: Message): (r: Option<ChatTarget>)
    ensures var c := ChatCandidates(m);
      r == if c[0].Some? then c[0] else if c[1].Some? then c[1] else if c[2].Some? then c[2] else c[3]
  {
    var c := ChatCandidates(m);
    FirstPresentOfFour(c[0], c[1], c[2], c[3]);
    FirstPresent(ChatCandidates(m))
  }

  /** A group id in `message_info` wins over every other field. */
  lemma GroupIdTakesPriority(m: Message)
    requires m.messageInfo.Some? && GroupOf(m.messageInfo.value.groupInfo).Some?
    ensures ResolveTarget(m) == Some(Group(m.messageInfo.value.groupInfo.value.groupId))
  {
  }

  /** `message_info` is consulted before `chat_stream`. */
  lemma MessageInfoBeforeChatStream(m: Message)
    requires m.messageInfo.Some?
    requires GroupOf(m.messageInfo.value.groupInfo).None? && UserOf(m.messageInfo.value.userInfo).Some?
    ensures ResolveTarget(m) == UserOf(m.messageInfo.value.userInfo)
  {
  }

  /**
   * With nothing usable in `message_info`, the chat is the `chat_stream`
   * group, and, when the stream has no `group_info`, its user.
   */
  lemma ChatStreamIsTheFallback(m: Message)
    requires m.messageInfo.Some? ==>
      GroupOf(m.messageInfo.value.groupInfo).None? && UserOf(m.messageInfo.value.userInfo).None?
    requires m.chatStream.Some?
    ensures m.chatStream.value.groupInfo.Some? ==> ResolveTarget(m) == GroupOf(m.chatStream.value.groupInfo)
    ensures m.chatStream.value.groupInfo.None? ==> ResolveTarget(m) == UserOf(m.chatStream.value.userInfo)
  {
  }

  /**
   * A `chat_stream.group_info` without a group id hides `chat_stream.user_info`:
   * with nothing usable in `message_info` no chat is found.
   */
  lemma StreamGroupInfoHidesStreamUser(cs: ChatStream, mi: Option<MessageInfo>)
    requires cs.groupInfo == Some(GroupInfo(""))
    requires mi.Some? ==> mi.value.groupInfo.None? && mi.value.userInfo.None?
    ensures ResolveTarget(Message(mi, Some(cs))) == None
  {
  }

  /**
   * The step-by-step assignments to `chat_id` and `is_group` of
   * `_send_video_via_napcat`; `""` is the code's `None`.
   */
  method ResolveChatContext(m: Message) returns (chatId: string, isGroup: bool)
    ensures chatId == "" <==> ResolveTarget(m).None?
    ensures chatId != "" ==> ResolveTarget(m) == Some(if isGroup then Group(chatId) else Private(chatId))
  {
    chatId := "";
    isGroup := false;
    if m.messageInfo.Some? {
      var info := m.messageInfo.value;
      if info.groupInfo.Some? {
        if info.groupInfo.value.groupId != "" {
          chatId := info.groupInfo.value.groupId;
          isGroup := true;
        }
      }
      if chatId == "" && info.userInfo.Some? {
        if info.userInfo.value.userId != "" {
          chatId := info.userInfo.value.userId;
          isGroup := false;
        }
      }
    }
    if chatId == "" && m.chatStream.Some? {
      var stream := m.chatStream.value;
      if stream.groupInfo.Some? {
        if stream.groupInfo.value.groupId != "" {
          chatId := stream.groupInfo.value.groupId;
          isGroup := true;
        }
      } else if stream.userInfo.Some? {
        if stream.userInfo.value.userId != "" {
          chatId := stream.userInfo.value.userId;
          isGroup := false;
        }
      }
    }
  }

  /** The POST to the gateway: its URL, the id member and value, the file URI and the token. */
  datatype NapcatRequest = NapcatRequest(
    url: string,
    idField: string,
    chatId: string,
    file: string,
    bodyToken: Option<string>,
    authorization: Option<string>)

  const GroupEndpoint: string := "/send_group_msg"
  const PrivateEndpoint: string := "/send_private_msg"

  /** The request for a chat; the token goes in the body and the header only when configured. */
  function RequestFor(port: int, target: ChatTarget, videoPath: string, token: string): (r: NapcatRequest)
    ensures r.url == "http://localhost:" + IntToString(port) + (if target.Group? then GroupEndpoint else PrivateEndpoint)
    ensures r.file == "file://" + videoPath
    ensures r.authorization.Some? ==> r.authorization.value == "Bearer " + token && r.bodyToken == Some(token)
    ensures token == "" ==> r.authorization.None? && r.bodyToken.None?
    ensures token != "" ==> r.authorization == Some("Bearer " + token) && r.bodyToken == Some(token)
  {
    var base := "http://localhost:" + IntToString(port);
    var file := "file://" + videoPath;
    var bodyToken := if token != "" then Some(token) else None;
    var auth := if token != "" then Some("Bearer " + token) else None;
    match target
    case Group(g) => NapcatRequest(base + GroupEndpoint, "group_id", g, file, bodyToken, auth)
    case Private(u) => NapcatRequest(base + PrivateEndpoint, "user_id", u, file, bodyToken, auth)
  }

  /** Group chats go to `/send_group_msg` with `group_id`; private chats to `/send_private_msg` with `user_id`. */
  lemma RequestAddressing(port: int, target: ChatTarget, videoPath: string, token: string)
    ensures var r := RequestFor(port, target, videoPath, token);
      && r.url == "http://localhost:" + IntToString(port) + (if target.Group? then GroupEndpoint else PrivateEndpoint)
      && (target.Group? <==> EndsWith(r.url, GroupEndpoint))
      && (target.Private? <==> EndsWith(r.url, PrivateEndpoint))
      && (r.idField == "group_id" <==> target.Group?)
      && r.chatId == (if target.Group? then target.groupId else target.userId)
      && r.file == "file://" + videoPath
      && (r.authorization.Some? <==> token != "") && (r.bodyToken.Some? <==> token != "")
  {
    var base := "http://localhost:" + IntToString(port);
    assert EndsWith(base + GroupEndpoint, GroupEndpoint);
    assert EndsWith(base + PrivateEndpoint, PrivateEndpoint);
    var groupUrl, privateUrl := base + GroupEndpoint, base + PrivateEndpoint;
    assert groupUrl[|groupUrl| - 11] == 'd' && PrivateEndpoint[6] == 'p';
    assert privateUrl[|privateUrl| - 11] == 'p' && GroupEndpoint[4] == 'd';
  }

  /** The gateway's answer: an HTTP status and whether its body parsed as JSON; a timeout; another exception. */
  datatype GatewayReply = Replied(httpStatus: int, jsonBody: bool) | TimedOut | Raised

  /** Napcat settings and the command's `message` attribute (`None` when it has none). */
  datatype NapcatEnv = NapcatEnv(port: int, token: string, message: Option<Message>)

  /** The gateway takes the video exactly when all of this holds. */
  function NapcatDelivers(env: NapcatEnv, fileExists: bool, gateway: GatewayReply): (delivers: bool)
    ensures delivers ==> fileExists && env.message.Some? && ResolveTarget(env.message.value).Some?
    ensures gateway.TimedOut? || gateway.Raised? ==> !delivers
    ensures gateway.Replied? && (gateway.httpStatus != 200 || !gateway.jsonBody) ==> !delivers
    ensures fileExists && env.message.Some? && ResolveTarget(env.message.value).Some? && gateway == Replied(200, true)
      ==> delivers
  {
    fileExists && env.message.Some? && ResolveTarget(env.message.value).Some?
    && gateway == Replied(200, true)
  }

  /**
   * `_send_video_via_napcat`: fails without a file, a message or a chat id;
   * otherwise posts the request and succeeds only on a 200 with a JSON body.
   */
  method SendVideoViaNapcat(env: NapcatEnv, videoPath: string, fileExists: bool, gateway: GatewayReply)
    returns (sent: bool, request: Option<NapcatRequest>)
    ensures request.Some? <==> fileExists && env.message.Some? && ResolveTarget(env.message.value).Some?
    ensures request.Some? ==>
      request.value == RequestFor(env.port, ResolveTarget(env.message.value).value, videoPath, env.token)
    ensures sent <==> NapcatDelivers(env, fileExists, gateway)
  {
    if !fileExists {
      return false, None;
    }
    if env.message.None? {
      return false, None;
    }
    var chatId, isGroup := ResolveChatContext(env.message.value);
    if chatId == "" {
      return false, None;
    }
    var target := if isGroup then Group(chatId) else Private(chatId);
    request := Some(RequestFor(env.port, target, videoPath, env.token));
    sent := gateway.Replied? && gateway.httpStatus == 200 && gateway.jsonBody;
  }

  /** The host's own sending methods, in the order the code probes them. */
  datatype HostCapabilities = HostCapabilities(sendVideo: bool, sendFile: bool, uploadVideo: bool)

  /** How a video reached the user, or that only a link or path was given. */
  datatype Channel = Napcat | SendVideo | SendFile | UploadVideo | TextOnly

  /** The first host capability present: `send_video`, then `send_file`, then `upload_video`. */
  function HostChannel(caps: HostCapabilities): (c: Option<Channel>)
    ensures c.None? <==> !caps.sendVideo && !caps.sendFile && !caps.uploadVideo
    ensures c.Some? ==> c.value in {SendVideo, SendFile, UploadVideo}
    ensures c == Some(SendVideo) <==> caps.sendVideo
    ensures c == Some(SendFile) <==> !caps.sendVideo && caps.sendFile
    ensures c == Some(UploadVideo) <==> !caps.sendVideo && !caps.sendFile && caps.uploadVideo
  {
    if caps.sendVideo then Some(SendVideo)
    else if caps.sendFile then Some(SendFile)
    else if caps.uploadVideo then Some(UploadVideo)
    else None
  }

  const DownloadingText: string := "📥 正在下载视频..."
  const SendingText: string := "📤 正在发送视频..."
  const SentText: string := "✅ 视频发送成功！"
  const SendFailedText: string := "发送视频失败，已发送下载链接"

  function LinkText(videoUrl: string): string {
    "🎬 视频生成完成！下载链接：" + videoUrl
  }

  /**
   * `_send_video_result` after the download (`downloaded` is the local path, or
   * `None` when the download failed): Napcat, then a host capability, then the
   * link as text. `hostRaises` says the host call raised, which the code
   * catches by sending the link. `removed` says the file is deleted afterwards.
   */
  method SendVideoResult(videoUrl: string, downloaded: Option<string>, env: NapcatEnv, gateway: GatewayReply,
                         fileExists: bool, caps: HostCapabilities, hostRaises: bool, keepFiles: bool)
    returns (channel: Channel, replies: seq<string>, removed: bool)
    ensures downloaded.None? ==> channel == TextOnly && replies == [DownloadingText, LinkText(videoUrl)]
    ensures downloaded.Some? && channel != TextOnly ==> replies == [DownloadingText, SendingText, SentText]
    ensures downloaded.Some? && !NapcatDelivers(env, fileExists, gateway) && HostChannel(caps).Some? && hostRaises ==>
      channel == TextOnly && replies == [DownloadingText, SendingText, LinkText(videoUrl), SendFailedText]
    ensures downloaded.Some? && !NapcatDelivers(env, fileExists, gateway) && HostChannel(caps).None? ==>
      channel == TextOnly && replies == [DownloadingText, SendingText, LinkText(videoUrl)]
    ensures channel == Napcat <==> downloaded.Some? && NapcatDelivers(env, fileExists, gateway)
    ensures channel in {SendVideo, SendFile, UploadVideo} <==>
      downloaded.Some? && !NapcatDelivers(env, fileExists, gateway) && HostChannel(caps).Some? && !hostRaises
    ensures channel in {SendVideo, SendFile, UploadVideo} ==> Some(channel) == HostChannel(caps)
    ensures channel != TextOnly ==> replies[|replies| - 1] == SentText && LinkText(videoUrl) !in replies
    ensures channel == TextOnly ==> LinkText(videoUrl) in replies && SentText !in replies
    ensures removed <==>
      && downloaded.Some? && !keepFiles && fileExists
      && !(!NapcatDelivers(env, fileExists, gateway) && HostChannel(caps).Some? && hostRaises)
  {
    LinkTextDistinct(videoUrl);
    replies := [DownloadingText];
    removed := false;
    channel := TextOnly;
    if downloaded.None? {
      replies := replies + [LinkText(videoUrl)];
      return;
    }
    var videoPath := downloaded.value;
    replies := replies + [SendingText];
    var napcatSent, _ := SendVideoViaNapcat(env, videoPath, fileExists, gateway);
    var videoSent := napcatSent;
    if !napcatSent {
      var host := HostChannel(caps);
      if host.Some? {
        if hostRaises {
          replies := replies + [LinkText(videoUrl), SendFailedText];
          return;
        }
        replies := replies + [SentText];
        videoSent := true;
        channel := host.value;
      }
    } else {
      replies := replies + [SentText];
      channel := Napcat;
    }
    if !videoSent {
      replies := replies + [LinkText(videoUrl)];
    }
    if !keepFiles && fileExists {
      removed := true;
    }
  }

  /** The link message differs from every fixed message, since they start differently. */
  lemma LinkTextDistinct(videoUrl: string)
    ensures LinkText(videoUrl) != DownloadingText && LinkText(videoUrl) != SendingText
    ensures LinkText(videoUrl) != SentText && LinkText(videoUrl) != SendFailedText
    ensures SentText != DownloadingText && SentText != SendingText && SentText != SendFailedText
  {
    assert LinkText(videoUrl)[0] == '🎬';
  }
}
