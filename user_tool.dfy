/**
 * The `search_user_info` tool, defined beside the tool-calling example but
 * not registered by it: it looks a user up by name in a fixed in-memory
 * table and answers with a small JSON object, modelled here by the
 * object's fields.
 */
module UserTool {
  import opened GoStrings

  datatype Option<T> = None | Some(value: T)

  /** `UserQueryParams`: the tool's argument. */
  datatype UserQueryParams = UserQueryParams(name: string)

  /** `UserInfo`: what the table stores for a user. */
  datatype UserInfo = UserInfo(company: string, title: string, email: string)

  /**
   * The JSON object the tool answers with: `{"error": …}`,
   * `{"found": true, "name": …, "user": …}` or `{"found": false, "msg": …}`.
   */
  datatype Reply =
    | NameRequired(error: string)
    | UserFound(name: string, user: UserInfo)
    | UserNotFound(msg: string)

  /** The tool's two return values: the reply and Go's `error`. */
  datatype ToolOutput = ToolOutput(reply: Reply, err: Option<string>)

  const NameRequiredMessage: string := "name is required"
  const NotFoundMessage: string := "user not found"

  /** The simulated database. */
  const Db: map<string, UserInfo> := map[
    "张三" := UserInfo("阿里巴巴", "后端工程师", "zhangsan@example.com"),
    "李四" := UserInfo("字节跳动", "数据分析师", "lisi@example.com"),
    "王五" := UserInfo("华为", "产品经理", "wangwu@example.com")
  ]

  /** The argument is missing, or its name is empty once trimmed, i.e. all white space. */
  predicate MissingName(p: Option<UserQueryParams>) {
    p.None? || AllSpace(p.value.name)
  }

  /**
   * `search_user_info_from_db`: a missing or blank name is refused, a name
   * that is a key of the table is answered with its entry, and any other
   * name is reported as not found. The Go error is always nil. The name is
   * looked up as given, not trimmed.
   */
  function SearchUserInfoFromDb(p: Option<UserQueryParams>): (out: ToolOutput)
    ensures out.err == None
    ensures out.reply.NameRequired? <==> MissingName(p)
    ensures out.reply.NameRequired? ==> out.reply.error == NameRequiredMessage
    ensures out.reply.UserFound? <==> !MissingName(p) && p.value.name in Db
    ensures out.reply.UserFound? ==> out.reply.name == p.value.name && out.reply.user == Db[p.value.name]
    ensures out.reply.UserNotFound? <==> !MissingName(p) && p.value.name !in Db
    ensures out.reply.UserNotFound? ==> out.reply.msg == NotFoundMessage
  {
    if MissingName(p) then ToolOutput(NameRequired(NameRequiredMessage), None)
    else if p.value.name in Db then ToolOutput(UserFound(p.value.name, Db[p.value.name]), None)
    else ToolOutput(UserNotFound(NotFoundMessage), None)
  }

  /** The table holds exactly the three users, with their entries. */
  lemma DbContents()
    ensures Db.Keys == {"张三", "李四", "王五"}
    ensures Db["张三"] == UserInfo("阿里巴巴", "后端工程师", "zhangsan@example.com")
    ensures Db["李四"] == UserInfo("字节跳动", "数据分析师", "lisi@example.com")
    ensures Db["王五"] == UserInfo("华为", "产品经理", "wangwu@example.com")
  {
  }

  /** Every key of the table is its own trimmed form. */
  lemma DbKeysTrimmed(k: string)
    requires k in Db
    ensures TrimSpace(k) == k && !AllSpace(k)
  {
    TrimSpaceFixpoint(k);
  }

  /**
   * A name with white space around it passes the blank check but is never
   * found, since the table's keys carry no such white space.
   */
  lemma UntrimmedNameNotFound(name: string)
    requires !AllSpace(name) && TrimSpace(name) != name
    ensures SearchUserInfoFromDb(Some(UserQueryParams(name))).reply == UserNotFound(NotFoundMessage)
  {
    if name in Db {
      DbKeysTrimmed(name);
    }
  }

  /** For instance " 张三" is reported as not found although "张三" is in the table. */
  lemma PaddedKnownNameNotFound()
    ensures SearchUserInfoFromDb(Some(UserQueryParams("张三"))).reply.UserFound?
    ensures SearchUserInfoFromDb(Some(UserQueryParams(" 张三"))).reply == UserNotFound(NotFoundMessage)
  {
    DbKeysTrimmed("张三");
    assert TrimSpace(" 张三") == "张三";
    UntrimmedNameNotFound(" 张三");
  }
}
