/**
 * The six posts `MemStorage` creates when it is constructed. Every field is
 * as the store gives it, except that each markdown `content` body is cut down
 * to its first line, the heading, and each `summary` to its first sentence;
 * every seed supplies `readTime` and `imageUrl`.
 */
module Seed {
  import opened Wrappers
  import opened Schema

  const Post1: InsertPost := InsertPost(
    "Understanding TypeScript: A Practical Guide for React Developers",
    "# Understanding TypeScript",
    "TypeScript has become an essential tool for modern React development.",
    "Sarah Chen",
    "Technology",
    Some("5 min read"),
    Some("https://images.unsplash.com/photo-1519389950473-47ba0277781c"))

  const Post2: InsertPost := InsertPost(
    "Building Responsive UIs with Tailwind CSS",
    "# Building Responsive UIs with Tailwind CSS",
    "Learn how to create beautiful, responsive user interfaces using Tailwind CSS.",
    "Michael Roberts",
    "React",
    Some("3 min read"),
    Some("https://images.unsplash.com/photo-1555066931-4365d14bab8c"))

  const Post3: InsertPost := InsertPost(
    "Optimizing React Applications for Speed",
    "# Optimizing React Applications for Speed",
    "Performance matters in web applications.",
    "Emily Johnson",
    "Performance",
    Some("4 min read"),
    Some("https://images.unsplash.com/photo-1498050108023-c5249f4df085"))

  const Post4: InsertPost := InsertPost(
    "Animation Fundamentals with Framer Motion",
    "# Animation Fundamentals with Framer Motion",
    "Add life to your React components with Framer Motion.",
    "David Kim",
    "UI/UX",
    Some("6 min read"),
    Some("https://images.unsplash.com/photo-1551288049-bebda4e38f71"))

  const Post5: InsertPost := InsertPost(
    "State Management Patterns in React Applications",
    "# State Management Patterns in React Applications",
    "Choosing the right state management approach is crucial for scalable React applications.",
    "Alex Turner",
    "Architecture",
    Some("7 min read"),
    Some("https://images.unsplash.com/photo-1618477247222-acbdb0e159b3"))

  const Post6: InsertPost := InsertPost(
    "Rendering Markdown in React Applications",
    "# Rendering Markdown in React Applications",
    "Markdown provides a simple way to format content.",
    "Jessica Park",
    "Markdown",
    Some("3 min read"),
    Some("https://images.unsplash.com/photo-1623282033815-40b05d96c903"))
}
