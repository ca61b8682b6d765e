/** The Redis keys of the conversation service. Each is a pure function of
    its inputs; the question goes last, as base 64 of its UTF-8 bytes. */
module CacheKeys {
  import opened Wrappers
  import opened Text
  import opened Types
  import Base64

  const TeamCacheTtl: nat := 30 * 60
  const ContextCacheTtl: nat := 30 * 60
  const CommandsCacheTtl: nat := 24 * 60 * 60
  const AnswerCacheTtl: nat := 2 * 24 * 60 * 60

  /** `team:<teamId>`. */
  function TeamKey(teamId: string): string {
    "team:" + teamId
  }

  /** `adev_commands:<teamName>`. */
  function CommandsKey(teamName: string): string {
    "adev_commands:" + teamName
  }

  /** `<namespace>:<deployment>:<scope>:<promptType>:<agent or none>:<base64(question)>`. */
  function ScopedKey(namespace: string, deployment: string, scope: string, promptType: PromptType,
                     agent: Option<string>, question: string): string
  {
    namespace + ":" + deployment + ":" + scope + ":" + promptType.Name() + ":"
    + OrElse(agent, "none") + ":" + Base64.EncodeString(question)
  }

  /** The key of the assembled context: scoped by the team NAME and the agent id. */
  function ContextKey(deployment: string, teamName: string, promptType: PromptType,
                      agentId: Option<string>, question: string): string
  {
    ScopedKey("relevantContext", deployment, teamName, promptType, agentId, question)
  }

  /** The key of a finished answer: scoped by the team ID and the agent instance. */
  function ConversationKey(deployment: string, teamId: string, promptType: PromptType,
                           agentInstance: Option<string>, question: string): string
  {
    ScopedKey("conversation", deployment, teamId, promptType, agentInstance, question)
  }

  /** The text after the last `:`. */
  function LastSegment(key: string): string {
    var parts := Split(key, ':');
    parts[|parts| - 1]
  }

  /** The question segment can be cut off any scoped key and decoded back
      to the question, whatever the other segments hold. */
  lemma QuestionRecoverable(namespace: string, deployment: string, scope: string,
                            promptType: PromptType, agent: Option<string>, question: string)
    ensures LastSegment(ScopedKey(namespace, deployment, scope, promptType, agent, question))
            == Base64.EncodeString(question)
    ensures Base64.DecodeString(LastSegment(ScopedKey(namespace, deployment, scope, promptType, agent, question)))
            == Some(question)
  {
    var b := Base64.EncodeString(question);
    var front := namespace + ":" + deployment + ":" + scope + ":" + promptType.Name() + ":"
                 + OrElse(agent, "none");
    assert ScopedKey(namespace, deployment, scope, promptType, agent, question) == front + [':'] + b;
    Base64.DecodeEncodeString(question);
    SplitAround(front, ':', b);
    SplitWithout(b, ':');
  }

  /** When no segment before the question holds a `:`, the key splits back
      into exactly its six segments, with `none` for an absent agent. */
  lemma Segments(namespace: string, deployment: string, scope: string,
                 promptType: PromptType, agent: Option<string>, question: string)
    requires ':' !in namespace && ':' !in deployment && ':' !in scope
    requires agent.Some? ==> ':' !in agent.value
    ensures Split(ScopedKey(namespace, deployment, scope, promptType, agent, question), ':')
            == [namespace, deployment, scope, promptType.Name(), OrElse(agent, "none"),
                Base64.EncodeString(question)]
  {
    var b := Base64.EncodeString(question);
    var a := OrElse(agent, "none");
    var p := promptType.Name();
    Base64.DecodeEncodeString(question);
    SplitWithout(namespace, ':');
    var k1 := namespace + [':'] + deployment;
    SplitOneMore(namespace, [namespace], deployment);
    var k2 := k1 + [':'] + scope;
    SplitOneMore(k1, [namespace] + [deployment], scope);
    var k3 := k2 + [':'] + p;
    SplitOneMore(k2, [namespace] + [deployment] + [scope], p);
    var k4 := k3 + [':'] + a;
    SplitOneMore(k3, [namespace] + [deployment] + [scope] + [p], a);
    var k5 := k4 + [':'] + b;
    SplitOneMore(k4, [namespace] + [deployment] + [scope] + [p] + [a], b);
    SixPieces(namespace, deployment, scope, p, a, b);
    assert ScopedKey(namespace, deployment, scope, promptType, agent, question) == k5;
  }

  lemma SixPieces<T>(x1: T, x2: T, x3: T, x4: T, x5: T, x6: T)
    ensures [x1] + [x2] + [x3] + [x4] + [x5] + [x6] == [x1, x2, x3, x4, x5, x6]
  {
  }

  /** A segment without `:` after one more `:` is one more piece. */
  lemma SplitOneMore(key: string, parts: seq<string>, x: string)
    requires Split(key, ':') == parts && ':' !in x
    ensures Split(key + [':'] + x, ':') == parts + [x]
  {
    SplitAround(key, ':', x);
    SplitWithout(x, ':');
  }

  /** Two keys with the same scope differ whenever the questions differ, so
      different questions never share a cache entry. */
  lemma KeySeparatesQuestions(namespace: string, deployment: string, scope: string,
                              promptType: PromptType, agent: Option<string>, q1: string, q2: string)
    requires ScopedKey(namespace, deployment, scope, promptType, agent, q1)
             == ScopedKey(namespace, deployment, scope, promptType, agent, q2)
    ensures q1 == q2
  {
    QuestionRecoverable(namespace, deployment, scope, promptType, agent, q1);
    QuestionRecoverable(namespace, deployment, scope, promptType, agent, q2);
  }
}
